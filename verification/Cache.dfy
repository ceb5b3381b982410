/** The semantic answer cache, partitioned by clearance and corpus version. */
module Cache {
  import opened Text

  type Vec = seq<real>

  datatype Partition = Partition(clearance: string, corpus: string)
  datatype Entry = Entry(part: Partition, vec: Vec, answer: string, model: string, expiresAt: int)
  datatype CachedAnswer = CachedAnswer(answer: Option<string>, model: Option<string>)
  datatype Hit = Hit(answer: string, model: string, similarity: real)

  /** One row of a search result; the store reports the cosine distance as the score. */
  datatype Document = Document(answer: string, model: string, clearance: string, score: Option<real>)
  datatype SearchResult = Documents(docs: seq<Document>) | NoSuchIndex | Failed

  datatype Settings = Settings(dim: nat, threshold: real, ttl: int)

  /** How the store decides whether an entry is in a partition; it should be equality of both parts. */
  type Filter = (Partition, Partition) -> bool

  ghost predicate Exact(filter: Filter) { forall p, q :: filter(p, q) <==> p == q }

  /** The entries a filtered search ranges over. */
  predicate Searchable(e: Entry, dim: nat, part: Partition, now: int) {
    e.part == part && |e.vec| == dim && now < e.expiresAt
  }

  /** Exact nearest neighbour within the filter; the older of two equally near entries wins. */
  function Nearest(distance: (Vec, Vec) -> real, dim: nat, entries: seq<Entry>, part: Partition, q: Vec, now: int)
    : Option<Entry>
  {
    if entries == [] then None
    else
      var best := Nearest(distance, dim, entries[..|entries| - 1], part, q, now);
      var e := entries[|entries| - 1];
      if Searchable(e, dim, part, now) && (best.None? || distance(e.vec, q) < distance(best.value.vec, q)) then Some(e)
      else best
  }

  /** The nearest entry under whatever filter the store applies. */
  function NearestBy(filter: Filter, distance: (Vec, Vec) -> real, dim: nat, entries: seq<Entry>, part: Partition,
                     q: Vec, now: int): Option<Entry>
  {
    if entries == [] then None
    else
      var best := NearestBy(filter, distance, dim, entries[..|entries| - 1], part, q, now);
      var e := entries[|entries| - 1];
      if filter(e.part, part) && |e.vec| == dim && now < e.expiresAt
         && (best.None? || distance(e.vec, q) < distance(best.value.vec, q)) then Some(e)
      else best
  }

  function Documented(distance: (Vec, Vec) -> real, e: Entry, q: Vec): Document {
    Document(e.answer, e.model, e.part.clearance, Some(distance(e.vec, q)))
  }

  function TopHit(docs: seq<Document>, clearance: string, threshold: real): Option<Hit> {
    if docs == [] then None
    else
      var top := docs[0];
      var similarity := 1.0 - (if top.score.None? then 1.0 else top.score.value);
      if top.clearance != clearance || similarity < threshold then None
      else Some(Hit(top.answer, top.model, similarity))
  }

  /** What a lookup finds among the stored entries. */
  function Found(distance: (Vec, Vec) -> real, s: Settings, entries: seq<Entry>, part: Partition, q: Vec, now: int)
    : Option<Hit>
  {
    if q == [] || |q| != s.dim then None
    else
      match Nearest(distance, s.dim, entries, part, q, now)
      case None => None
      case Some(e) =>
        var similarity := 1.0 - distance(e.vec, q);
        if similarity < s.threshold then None else Some(Hit(e.answer, e.model, similarity))
  }

  /** What a lookup finds when the store applies the given filter. */
  function FoundBy(filter: Filter, distance: (Vec, Vec) -> real, s: Settings, entries: seq<Entry>, part: Partition,
                   q: Vec, now: int): Option<Hit>
  {
    if q == [] || |q| != s.dim then None
    else
      match NearestBy(filter, distance, s.dim, entries, part, q, now)
      case None => None
      case Some(e) => TopHit([Documented(distance, e, q)], part.clearance, s.threshold)
  }

  function OrEmpty(s: Option<string>): string { if s.None? then "" else s.value }

  function Stored(s: Settings, entries: seq<Entry>, part: Partition, vec: Vec, answer: Option<CachedAnswer>, now: int)
    : seq<Entry>
  {
    if vec == [] || answer.None? then entries
    else entries + [Entry(part, vec, OrEmpty(answer.value.answer), OrEmpty(answer.value.model), now + s.ttl)]
  }

  /** `indexReady` is the gateway's memory of having created the index; `indexExists` and `entries`
      are the store's own state. */
  class RedisSemanticCache {
    const filter: Filter
    const distance: (Vec, Vec) -> real
    const settings: Settings
    var indexReady: bool
    var indexExists: bool
    var entries: seq<Entry>

    constructor (filter: Filter, distance: (Vec, Vec) -> real, settings: Settings, indexExists: bool,
                 entries: seq<Entry>)
      ensures this.filter == filter && this.distance == distance && this.settings == settings
      ensures this.entries == entries
    {
      this.filter := filter;
      this.distance := distance;
      this.settings := settings;
      this.indexReady := false;
      this.indexExists := indexExists;
      this.entries := entries;
    }

    method EnsureIndex()
      modifies this`indexReady, this`indexExists
      ensures indexReady && indexExists == (old(indexExists) || !old(indexReady))
    {
      if indexReady {
        return;
      }
      indexExists := true;
      indexReady := true;
    }

    /** The store's filtered search, one neighbour. */
    method Search(part: Partition, q: Vec, now: int) returns (r: SearchResult)
      ensures !indexExists ==> r == NoSuchIndex
      ensures indexExists && |q| != settings.dim ==> r == Failed
      ensures indexExists && |q| == settings.dim ==>
                r == Documents(match NearestBy(filter, distance, settings.dim, entries, part, q, now)
                               case None => []
                               case Some(e) => [Documented(distance, e, q)])
    {
      if !indexExists { return NoSuchIndex; }
      if |q| != settings.dim { return Failed; }
      var best := NearestBy(filter, distance, settings.dim, entries, part, q, now);
      match best
      case None => return Documents([]);
      case Some(e) => return Documents([Documented(distance, e, q)]);
    }

    /** Whatever became of the index, a lookup finds what the stored entries hold under the store's filter. */
    method Lookup(part: Partition, q: Vec, now: int) returns (hit: Option<Hit>)
      modifies this`indexReady, this`indexExists
      ensures hit == FoundBy(filter, distance, settings, entries, part, q, now)
      ensures Exact(filter) ==> hit == Found(distance, settings, entries, part, q, now)
    {
      if Exact(filter) { ExactFilterFinds(filter, distance, settings, entries, part, q, now); }
      if q == [] { return None; }
      EnsureIndex();
      var r := Search(part, q, now);
      match r
      case Documents(docs) => return TopHit(docs, part.clearance, settings.threshold);
      case NoSuchIndex =>
        indexReady := false;
        EnsureIndex();
        var again := Search(part, q, now);
        if again.Documents? { return TopHit(again.docs, part.clearance, settings.threshold); }
        return None;
      case Failed => return None;
    }

    method Put(part: Partition, vec: Vec, answer: Option<CachedAnswer>, now: int)
      modifies this
      ensures entries == Stored(settings, old(entries), part, vec, answer, now)
    {
      if vec == [] || answer.None? { return; }
      EnsureIndex();
      var e := Entry(part, vec, OrEmpty(answer.value.answer), OrEmpty(answer.value.model), now + settings.ttl);
      entries := entries + [e];
    }

    /** The store restarts empty; the gateway does not notice. */
    method Restart()
      modifies this`indexExists, this`entries
      ensures !indexExists && entries == []
    {
      indexExists := false;
      entries := [];
    }
  }

  // ---- what a hit is ------------------------------------------------------------------------------

  lemma {:induction false} NearestIsSearchable(distance: (Vec, Vec) -> real, dim: nat, entries: seq<Entry>,
                                              part: Partition, q: Vec, now: int)
    ensures var best := Nearest(distance, dim, entries, part, q, now);
            && (best.Some? ==> best.value in entries && Searchable(best.value, dim, part, now))
            && (forall e :: e in entries && Searchable(e, dim, part, now) ==>
                  best.Some? && distance(best.value.vec, q) <= distance(e.vec, q))
  {
    if entries != [] {
      var n := |entries| - 1;
      assert entries == entries[..n] + [entries[n]];
      NearestIsSearchable(distance, dim, entries[..n], part, q, now);
    }
  }

  /** A hit is an unexpired entry of the caller's own partition, no other such entry is nearer, and it
      reaches the threshold. */
  lemma HitIsNearestOwnEntry(distance: (Vec, Vec) -> real, s: Settings, entries: seq<Entry>, part: Partition,
                             q: Vec, now: int)
    requires Found(distance, s, entries, part, q, now).Some?
    ensures exists e :: && e in entries && e.part == part && now < e.expiresAt
                        && Found(distance, s, entries, part, q, now)
                           == Some(Hit(e.answer, e.model, 1.0 - distance(e.vec, q)))
                        && 1.0 - distance(e.vec, q) >= s.threshold
                        && forall other :: other in entries && Searchable(other, s.dim, part, now) ==>
                             distance(e.vec, q) <= distance(other.vec, q)
  {
    NearestIsSearchable(distance, s.dim, entries, part, q, now);
    var e := Nearest(distance, s.dim, entries, part, q, now).value;
    assert e in entries;
  }

  /** A lookup hits exactly when some unexpired entry of the partition is similar enough. */
  lemma HitIffSimilarEntry(distance: (Vec, Vec) -> real, s: Settings, entries: seq<Entry>, part: Partition,
                           q: Vec, now: int)
    ensures Found(distance, s, entries, part, q, now).Some?
       <==> q != [] && |q| == s.dim
            && exists e :: e in entries && Searchable(e, s.dim, part, now) && 1.0 - distance(e.vec, q) >= s.threshold
  {
    NearestIsSearchable(distance, s.dim, entries, part, q, now);
  }

  lemma {:induction false} NearestByIsStored(filter: Filter, distance: (Vec, Vec) -> real,
                                             dim: nat, entries: seq<Entry>,
                                            part: Partition, q: Vec, now: int)
    ensures var best := NearestBy(filter, distance, dim, entries, part, q, now);
            best.Some? ==> best.value in entries && now < best.value.expiresAt
  {
    if entries != [] {
      NearestByIsStored(filter, distance, dim, entries[..|entries| - 1], part, q, now);
    }
  }

  /** However the store's filter misbehaves, whatever a lookup serves was stored under the caller's own
      clearance, is unexpired and reaches the threshold. */
  lemma CrossClearanceRefused(filter: Filter, distance: (Vec, Vec) -> real, s: Settings, entries: seq<Entry>,
                              part: Partition, q: Vec, now: int)
    requires FoundBy(filter, distance, s, entries, part, q, now).Some?
    ensures exists e :: && e in entries && e.part.clearance == part.clearance && now < e.expiresAt
                        && FoundBy(filter, distance, s, entries, part, q, now)
                           == Some(Hit(e.answer, e.model, 1.0 - distance(e.vec, q)))
                        && 1.0 - distance(e.vec, q) >= s.threshold
  {
    NearestByIsStored(filter, distance, s.dim, entries, part, q, now);
    var e := NearestBy(filter, distance, s.dim, entries, part, q, now).value;
    assert e in entries;
  }

  lemma {:induction false} ExactFilterNearest(filter: Filter, distance: (Vec, Vec) -> real,
                                              dim: nat, entries: seq<Entry>,
                                             part: Partition, q: Vec, now: int)
    requires Exact(filter)
    ensures NearestBy(filter, distance, dim, entries, part, q, now) == Nearest(distance, dim, entries, part, q, now)
  {
    if entries != [] {
      ExactFilterNearest(filter, distance, dim, entries[..|entries| - 1], part, q, now);
    }
  }

  /** With an exact filter the second check of the clearance never fires. */
  lemma ExactFilterFinds(filter: Filter, distance: (Vec, Vec) -> real, s: Settings,
                         entries: seq<Entry>, part: Partition,
                         q: Vec, now: int)
    requires Exact(filter)
    ensures FoundBy(filter, distance, s, entries, part, q, now) == Found(distance, s, entries, part, q, now)
  {
    ExactFilterNearest(filter, distance, s.dim, entries, part, q, now);
    NearestIsSearchable(distance, s.dim, entries, part, q, now);
  }

  // ---- non-interference -----------------------------------------------------------------------------

  datatype World = World(now: int, entries: seq<Entry>)

  datatype Event =
    | Put(part: Partition, vec: Vec, answer: Option<CachedAnswer>)
    | Lookup(part: Partition, vec: Vec)
    | Wait(seconds: nat)
    | Restart

  function Next(s: Settings, w: World, e: Event): World {
    match e
    case Put(part, vec, answer) => w.(entries := Stored(s, w.entries, part, vec, answer, w.now))
    case Lookup(_, _) => w
    case Wait(seconds) => w.(now := w.now + seconds)
    case Restart => w.(entries := [])
  }

  function Run(s: Settings, w: World, events: seq<Event>): World
    decreases |events|
  {
    if events == [] then w else Run(s, Next(s, w, events[0]), events[1..])
  }

  /** How long a history waits in all. */
  function Waited(events: seq<Event>): nat {
    if events == [] then 0 else (if events[0].Wait? then events[0].seconds else 0) + Waited(events[1..])
  }

  /** The entry was put by the i-th event, at the time that event happened, to live for `ttl` seconds. */
  predicate PutAt(s: Settings, start: int, events: seq<Event>, i: nat, e: Entry) {
    && i < |events| && events[i].Put? && events[i].answer.Some? && events[i].vec != []
    && e.part == events[i].part && e.vec == events[i].vec
    && e.answer == OrEmpty(events[i].answer.value.answer) && e.model == OrEmpty(events[i].answer.value.model)
    && e.expiresAt == start + Waited(events[..i]) + s.ttl
  }

  lemma {:induction false} ClockOfRun(s: Settings, w: World, events: seq<Event>)
    ensures Run(s, w, events).now == w.now + Waited(events)
    decreases |events|
  {
    if events != [] { ClockOfRun(s, Next(s, w, events[0]), events[1..]); }
  }

  lemma {:induction false} EntriesWerePut(s: Settings, w: World, events: seq<Event>, e: Entry)
    requires e in Run(s, w, events).entries
    ensures e in w.entries || exists i: nat :: PutAt(s, w.now, events, i, e)
    decreases |events|
  {
    if events != [] {
      var x, rest := Next(s, w, events[0]), events[1..];
      EntriesWerePut(s, x, rest, e);
      if e in x.entries && e !in w.entries {
        assert events[..0] == [];
        assert PutAt(s, w.now, events, 0, e);
      } else if e !in x.entries {
        var i: nat :| PutAt(s, x.now, rest, i, e);
        assert events[..i + 1] == [events[0]] + rest[..i];
        assert PutAt(s, w.now, events, i + 1, e);
      }
    }
  }

  /** On every history from an empty cache, a hit gives back, unchanged, an answer that was put in the caller's
      own partition less than the time to live ago. */
  lemma HitWasPut(distance: (Vec, Vec) -> real, s: Settings, start: int, events: seq<Event>, part: Partition, q: Vec)
    requires var w := Run(s, World(start, []), events); Found(distance, s, w.entries, part, q, w.now).Some?
    ensures var w := Run(s, World(start, []), events);
            var hit := Found(distance, s, w.entries, part, q, w.now).value;
            exists i: nat ::
              && i < |events| && events[i].Put? && events[i].part == part && events[i].answer.Some?
              && Waited(events) - Waited(events[..i]) < s.ttl
              && hit.answer == OrEmpty(events[i].answer.value.answer)
              && hit.model == OrEmpty(events[i].answer.value.model)
              && hit.similarity == 1.0 - distance(events[i].vec, q) && hit.similarity >= s.threshold
  {
    var w := Run(s, World(start, []), events);
    HitIsNearestOwnEntry(distance, s, w.entries, part, q, w.now);
    var e :| e in w.entries && e.part == part && w.now < e.expiresAt
             && Found(distance, s, w.entries, part, q, w.now) == Some(Hit(e.answer, e.model, 1.0 - distance(e.vec, q)))
             && 1.0 - distance(e.vec, q) >= s.threshold;
    EntriesWerePut(s, World(start, []), events, e);
    ClockOfRun(s, World(start, []), events);
    var i: nat :| PutAt(s, start, events, i, e);
  }

  lemma {:induction false} EntriesStay(s: Settings, w: World, events: seq<Event>, e: Entry)
    requires e in w.entries && Event.Restart !in events
    ensures e in Run(s, w, events).entries
    decreases |events|
  {
    if events != [] {
      assert events[0] in events;
      EntriesStay(s, Next(s, w, events[0]), events[1..], e);
    }
  }

  /** And an answer that was put is found for every similar question until its time to live is over, unless
      the store restarts. */
  lemma PutIsFound(distance: (Vec, Vec) -> real, s: Settings, w: World, part: Partition, vec: Vec,
                   answer: CachedAnswer, later: seq<Event>, q: Vec)
    requires vec != [] && |vec| == s.dim == |q| && Event.Restart !in later && Waited(later) < s.ttl
    requires 1.0 - distance(vec, q) >= s.threshold
    ensures var x := Run(s, Next(s, w, Put(part, vec, Some(answer))), later);
            Found(distance, s, x.entries, part, q, x.now).Some?
  {
    var y := Next(s, w, Put(part, vec, Some(answer)));
    var e := y.entries[|y.entries| - 1];
    EntriesStay(s, y, later, e);
    ClockOfRun(s, y, later);
    var x := Run(s, y, later);
    assert Searchable(e, s.dim, part, x.now);
    HitIffSimilarEntry(distance, s, x.entries, part, q, x.now);
  }

  /** The results of the lookups a history makes in one partition, in order. */
  function Answers(distance: (Vec, Vec) -> real, s: Settings, w: World, events: seq<Event>, part: Partition)
    : seq<Option<Hit>>
    decreases |events|
  {
    if events == [] then []
    else
      var e := events[0];
      (if e.Lookup? && e.part == part then [Found(distance, s, w.entries, part, e.vec, w.now)] else [])
      + Answers(distance, s, Next(s, w, e), events[1..], part)
  }

  lemma {:induction false} AnswersInTurn(distance: (Vec, Vec) -> real, s: Settings, w: World, events: seq<Event>,
                                        part: Partition, e: Event)
    ensures Answers(distance, s, w, [], part) == []
    ensures var x := Run(s, w, events);
            Answers(distance, s, w, events + [e], part)
            == Answers(distance, s, w, events, part)
               + (if e.Lookup? && e.part == part then [Found(distance, s, x.entries, part, e.vec, x.now)] else [])
    decreases |events|
  {
    hide Found, Next;
    if events == [] {
      assert events + [e] == [e] && [e][1..] == [];
      assert forall a: seq<Option<Hit>> :: a + [] == a && [] + a == a;
    } else {
      assert (events + [e])[1..] == events[1..] + [e] && (events + [e])[0] == events[0];
      AnswersInTurn(distance, s, Next(s, w, events[0]), events[1..], part, e);
    }
  }

  /** The history without what other partitions stored. */
  function Erase(events: seq<Event>, part: Partition): seq<Event> {
    if events == [] then []
    else (if events[0].Put? && events[0].part != part then [] else [events[0]]) + Erase(events[1..], part)
  }

  function Own(entries: seq<Entry>, part: Partition): seq<Entry> {
    if entries == [] then []
    else
      Own(entries[..|entries| - 1], part)
      + (if entries[|entries| - 1].part == part then [entries[|entries| - 1]] else [])
  }

  lemma {:induction false} NearestIgnoresOthers(distance: (Vec, Vec) -> real, dim: nat, entries: seq<Entry>,
                                               part: Partition, q: Vec, now: int)
    ensures Nearest(distance, dim, entries, part, q, now) == Nearest(distance, dim, Own(entries, part), part, q, now)
  {
    if entries != [] {
      var n := |entries| - 1;
      NearestIgnoresOthers(distance, dim, entries[..n], part, q, now);
      if entries[n].part == part {
        assert Own(entries, part)[..|Own(entries, part)| - 1] == Own(entries[..n], part);
      } else {
        assert Own(entries, part) == Own(entries[..n], part);
      }
    }
  }

  lemma OwnOfStored(s: Settings, entries: seq<Entry>, of: Partition, vec: Vec, answer: Option<CachedAnswer>,
                    now: int, part: Partition)
    ensures Own(Stored(s, entries, of, vec, answer, now), part)
         == if of == part then Stored(s, Own(entries, part), of, vec, answer, now) else Own(entries, part)
  {
    if vec != [] && answer.Some? {
      assert Stored(s, entries, of, vec, answer, now)[..|entries|] == entries;
    }
  }

  lemma SameOwnSameFound(distance: (Vec, Vec) -> real, s: Settings, es: seq<Entry>, fs: seq<Entry>, part: Partition,
                         q: Vec, now: int)
    requires Own(es, part) == Own(fs, part)
    ensures Found(distance, s, es, part, q, now) == Found(distance, s, fs, part, q, now)
  {
    NearestIgnoresOthers(distance, s.dim, es, part, q, now);
    NearestIgnoresOthers(distance, s.dim, fs, part, q, now);
  }

  predicate Foreign(e: Event, part: Partition) { e.Put? && e.part != part }

  predicate Alike(w: World, v: World, part: Partition) {
    w.now == v.now && Own(w.entries, part) == Own(v.entries, part)
  }

  lemma StepKeepsAlike(s: Settings, w: World, v: World, e: Event, part: Partition)
    requires Alike(w, v, part)
    ensures Alike(Next(s, w, e), if Foreign(e, part) then v else Next(s, v, e), part)
  {
    if e.Put? {
      OwnOfStored(s, w.entries, e.part, e.vec, e.answer, w.now, part);
      OwnOfStored(s, v.entries, e.part, e.vec, e.answer, v.now, part);
    }
  }

  lemma EraseHead(events: seq<Event>, part: Partition)
    requires events != []
    ensures Foreign(events[0], part) ==> Erase(events, part) == Erase(events[1..], part)
    ensures !Foreign(events[0], part) ==>
              && Erase(events, part) != [] && Erase(events, part)[0] == events[0]
              && Erase(events, part)[1..] == Erase(events[1..], part)
  {
  }

  lemma {:induction false} SameOwnSameAnswers(distance: (Vec, Vec) -> real, s: Settings, w: World, v: World,
                                             events: seq<Event>, part: Partition)
    requires Alike(w, v, part)
    ensures Answers(distance, s, w, events, part) == Answers(distance, s, v, Erase(events, part), part)
    decreases |events|
  {
    if events != [] {
      var e := events[0];
      EraseHead(events, part);
      StepKeepsAlike(s, w, v, e, part);
      if Foreign(e, part) {
        SameOwnSameAnswers(distance, s, Next(s, w, e), v, events[1..], part);
      } else {
        SameOwnSameAnswers(distance, s, Next(s, w, e), Next(s, v, e), events[1..], part);
        if e.Lookup? { SameOwnSameFound(distance, s, w.entries, v.entries, part, e.vec, w.now); }
      }
    }
  }

  /** Erasing from any history every store made under another clearance or corpus version leaves every
      lookup of the partition unchanged. */
  lemma NonInterference(distance: (Vec, Vec) -> real, s: Settings, w: World, events: seq<Event>, part: Partition)
    ensures Answers(distance, s, w, events, part) == Answers(distance, s, w, Erase(events, part), part)
  {
    SameOwnSameAnswers(distance, s, w, w, events, part);
  }
}
