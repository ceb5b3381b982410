/** The two registry aliases that promote and roll back the serving model. */
module Aliases {
  import opened Text

  /** `champion` serves, `previous` is the version a rollback returns to. */
  datatype Pointers = Pointers(champion: Option<string>, previous: Option<string>)

  datatype Action = Promoted | RolledBack | Noop
  datatype Outcome = Outcome(champion: string, previous: Option<string>, action: Action) | NothingToRollBack

  function Promotion(a: Pointers, version: string): Pointers {
    if a.champion == Some(version) then a
    else Pointers(Some(version), if a.champion.Some? then a.champion else a.previous)
  }

  function Reversal(a: Pointers): Pointers {
    if a.previous.None? then a
    else Pointers(a.previous, if a.champion.Some? && a.champion != a.previous then a.champion else a.previous)
  }

  /** What a crash between the two writes leaves behind. */
  function CutPromote(a: Pointers, version: string): Pointers {
    if a.champion == Some(version) || a.champion.None? then a else a.(previous := a.champion)
  }

  function CutRollback(a: Pointers): Pointers { if a.previous.None? then a else a.(champion := a.previous) }

  class Registry {
    var aliases: Pointers

    constructor ()
      ensures aliases == Pointers(None, None)
    {
      aliases := Pointers(None, None);
    }

    method Promote(version: string) returns (r: Outcome)
      modifies this
      ensures aliases == Promotion(old(aliases), version)
      ensures r == if old(aliases).champion == Some(version) then Outcome(version, None, Noop)
                   else Outcome(version, old(aliases).champion, Promoted)
    {
      var current := aliases.champion;
      if current == Some(version) { return Outcome(version, None, Noop); }
      if current.Some? {
        aliases := aliases.(previous := current);
      }
      aliases := aliases.(champion := Some(version));
      return Outcome(version, current, Promoted);
    }

    method Rollback() returns (r: Outcome)
      modifies this
      ensures aliases == Reversal(old(aliases))
      ensures r == if old(aliases).previous.None? then NothingToRollBack
                   else Outcome(old(aliases).previous.value, old(aliases).champion, RolledBack)
    {
      var prev := aliases.previous;
      if prev.None? { return NothingToRollBack; }
      var current := aliases.champion;
      aliases := aliases.(champion := prev);
      if current.Some? && current != prev {
        aliases := aliases.(previous := current);
      }
      return Outcome(prev.value, current, RolledBack);
    }
  }

  datatype Step = DoPromote(version: string) | DoRollback | CrashInPromote(version: string) | CrashInRollback

  function After(a: Pointers, s: Step): Pointers {
    match s
    case DoPromote(v) => Promotion(a, v)
    case DoRollback => Reversal(a)
    case CrashInPromote(v) => CutPromote(a, v)
    case CrashInRollback => CutRollback(a)
  }

  function Run(a: Pointers, steps: seq<Step>): Pointers
    decreases |steps|
  {
    if steps == [] then a else Run(After(a, steps[0]), steps[1..])
  }

  predicate Offered(o: Option<string>, steps: seq<Step>) {
    o.Some? ==> DoPromote(o.value) in steps
  }

  lemma {:induction false} RunServesPromoted(a: Pointers, done: seq<Step>, steps: seq<Step>)
    requires Offered(a.champion, done) && Offered(a.previous, done) && (a.previous.Some? ==> a.champion.Some?)
    ensures var b := Run(a, steps);
            && Offered(b.champion, done + steps) && Offered(b.previous, done + steps)
            && (b.previous.Some? ==> b.champion.Some?) && (a.champion.Some? ==> b.champion.Some?)
    decreases |steps|
  {
    if steps == [] {
      assert done + [] == done;
    } else {
      assert (done + [steps[0]]) + steps[1..] == done + steps;
      RunServesPromoted(After(a, steps[0]), done + [steps[0]], steps[1..]);
    }
  }

  /** Over every run, with crashes between the two writes: what serves, and what a rollback would serve,
      was promoted earlier; a rollback target exists only beside a champion. */
  lemma OnlyPromotedVersionsServe(steps: seq<Step>)
    ensures var a := Run(Pointers(None, None), steps);
            && Offered(a.champion, steps) && Offered(a.previous, steps)
            && (a.previous.Some? ==> a.champion.Some?)
  {
    RunServesPromoted(Pointers(None, None), [], steps);
    assert [] + steps == steps;
  }

  function Promotions(versions: seq<string>): seq<Step> {
    seq(|versions|, i requires 0 <= i < |versions| => DoPromote(versions[i]))
  }

  lemma {:induction false} RunOn(a: Pointers, steps: seq<Step>, s: Step)
    ensures Run(a, steps + [s]) == After(Run(a, steps), s)
    decreases |steps|
  {
    if steps == [] {
      assert steps + [s] == [s] && [s][1..] == [];
    } else {
      assert (steps + [s])[1..] == steps[1..] + [s];
      RunOn(After(a, steps[0]), steps[1..], s);
    }
  }

  /** The last version serves; the rollback target is the last one before it that differs, if there is one. */
  predicate LastTwo(versions: seq<string>, a: Pointers)
    requires versions != []
  {
    var last := versions[|versions| - 1];
    && a.champion == Some(last)
    && (a.previous.None? ==> forall i :: 0 <= i < |versions| ==> versions[i] == last)
    && (a.previous.Some? ==>
          exists k :: 0 <= k < |versions| && a.previous == Some(versions[k]) && versions[k] != last
                      && forall i :: k < i < |versions| ==> versions[i] == last)
  }

  lemma OneMoreVersion(versions: seq<string>, a: Pointers, v: string)
    requires versions != [] && LastTwo(versions, a)
    ensures LastTwo(versions + [v], Promotion(a, v))
  {
    var n := |versions|;
    var more := versions + [v];
    assert forall i :: 0 <= i < n ==> more[i] == versions[i];
    if versions[n - 1] != v {
      assert more[n - 1] != v;
    } else if a.previous.Some? {
      var k :| 0 <= k < n && a.previous == Some(versions[k]) && versions[k] != v
               && forall i :: k < i < n ==> versions[i] == v;
      assert more[k] == versions[k];
    }
  }

  /** What promotions alone leave. */
  lemma {:induction false} LatestPromotionServes(versions: seq<string>)
    requires versions != []
    ensures LastTwo(versions, Run(Pointers(None, None), Promotions(versions)))
    decreases |versions|
  {
    hide LastTwo;
    var n := |versions| - 1;
    var earlier := versions[..n];
    assert Promotions(versions) == Promotions(earlier) + [DoPromote(versions[n])];
    RunOn(Pointers(None, None), Promotions(earlier), DoPromote(versions[n]));
    assert versions == earlier + [versions[n]];
    if n == 0 {
      assert Promotions(earlier) == [];
      FirstVersion(versions[n]);
    } else {
      LatestPromotionServes(earlier);
      OneMoreVersion(earlier, Run(Pointers(None, None), Promotions(earlier)), versions[n]);
    }
  }

  lemma FirstVersion(v: string)
    ensures LastTwo([v], Promotion(Pointers(None, None), v))
  {
  }

  /** A promotion after any run, with rollbacks and crashes: the version serves, and a rollback returns to what
      served before, if anything did. */
  lemma PromotionServes(steps: seq<Step>, version: string)
    ensures var a := Run(Pointers(None, None), steps);
            var b := Run(Pointers(None, None), steps + [DoPromote(version)]);
            && b.champion == Some(version)
            && (a.champion.None? ==> b.previous.None?)
            && (a.champion.Some? && a.champion != Some(version) ==> b.previous == a.champion)
            && (a.champion == Some(version) ==> b == a)
  {
    OnlyPromotedVersionsServe(steps);
    RunOn(Pointers(None, None), steps, DoPromote(version));
  }

  /** Rolling back twice changes nothing, exactly when there is a champion or nothing to roll back to. */
  lemma RollbackTwice(a: Pointers)
    ensures Reversal(Reversal(a)) == a <==> a.champion.Some? || a.previous.None?
  {
  }

  /** After every run, with crashes anywhere: a rollback can be undone by another, and it takes back any
      promotion that changed the champion. */
  lemma RollbackReversibleOnEveryRun(steps: seq<Step>, version: string)
    ensures var a := Run(Pointers(None, None), steps);
            && Reversal(Reversal(a)) == a
            && (a.champion.Some? && a.champion != Some(version) ==>
                  Reversal(Promotion(a, version)).champion == a.champion
                  && Reversal(Reversal(Promotion(a, version))) == Promotion(a, version))
  {
    OnlyPromotedVersionsServe(steps);
    RollbackTwice(Run(Pointers(None, None), steps));
    RollbackTwice(Promotion(Run(Pointers(None, None), steps), version));
  }

  /** A crash between the two writes of a promotion leaves the champion serving, and so does a rollback after it.
      Promoting again ends where the uninterrupted promotion would have. Rolling back again
      does so exactly when the two aliases agreed or there was nothing to do: otherwise the outgoing
      champion is lost. */
  lemma RetryAfterCrash(a: Pointers, version: string)
    ensures CutPromote(a, version).champion == a.champion
    ensures a.champion.Some? && a.champion != Some(version) ==> Reversal(CutPromote(a, version)).champion == a.champion
    ensures Promotion(CutPromote(a, version), version) == Promotion(a, version)
    ensures a.champion.Some? ==>
              (Reversal(CutRollback(a)) == Reversal(a) <==> a.previous.None? || a.champion == a.previous)
  {
  }
}
