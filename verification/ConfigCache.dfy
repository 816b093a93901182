/**
  The cached read of config.json: a stat, a look at the memoised copy, and only when its stat differs a read and
  a store. Any number of readers run at the same time, each of their steps on its own; the file may be written
  by the app or by anyone else between any two of them.
 */
module ConfigCache {
  import opened Text

  type Content = string

  /** The file between two writes. */
  datatype Version = Missing | File(mtime: int, content: Content)

  /** What a stat tells; a missing file has no time and no size. */
  datatype Key = Key(present: bool, mtime: int, size: nat)

  datatype Entry = Entry(key: Key, content: Content)

  function KeyOf(v: Version): Key {
    match v
    case Missing => Key(false, 0, 0)
    case File(mtime, content) => Key(true, mtime, |content|)
  }

  /** A missing file reads as the empty text. */
  function ContentOf(v: Version): Content {
    if v.Missing? then "" else v.content
  }

  /** What a reader gets that saw one version with its stat and finds another when it reads. */
  function Loaded(seen: Version, found: Version): Content {
    if seen.Missing? then "" else ContentOf(found)
  }

  function Hit(cache: Option<Entry>, key: Key): Option<Content> {
    if cache.Some? && cache.value.key == key then Some(cache.value.content) else None
  }

  // ----- the cache field and its methods -------------------------------------------------------------------

  class Cache {
    var entry: Option<Entry>

    constructor ()
      ensures entry == None
    {
      entry := None;
    }

    method Look(key: Key) returns (hit: Option<Content>)
      ensures hit == Hit(entry, key)
    {
      hit := None;
      if entry.Some? && entry.value.key == key { hit := Some(entry.value.content); }
    }

    method Store(key: Key, content: Content)
      modifies this
      ensures entry == Some(Entry(key, content))
    {
      entry := Some(Entry(key, content));
    }

    method Invalidate()
      modifies this
      ensures entry == None
    {
      entry := None;
    }

    /** One call with nobody else at the cache; the file is `seen` at the stat and `found` at the read. */
    method ReadConfigCached(seen: Version, found: Version) returns (content: Content)
      modifies this
      ensures content == if Hit(old(entry), KeyOf(seen)).Some? then old(entry).value.content else Loaded(seen, found)
      ensures Hit(entry, KeyOf(seen)) == Some(content)
      ensures Hit(old(entry), KeyOf(seen)).Some? ==> entry == old(entry)
    {
      var key := KeyOf(seen);
      var hit := Look(key);
      if hit.Some? { return hit.value; }
      content := "";
      if key.present { content := ContentOf(found); }
      Store(key, content);
    }
  }

  // ----- readers and writers in any order ------------------------------------------------------------------

  /** A call of a reader; `since` and `until` number the versions that were current when it began and ended. */
  datatype Reader =
    | Called(since: nat)
    | Statted(since: nat, key: Key)
    | Missed(since: nat, key: Key)
    | Held(since: nat, key: Key, content: Content)
    | Returned(since: nat, until: nat, content: Content)

  /** The number of the current version, the cache, and every call so far. */
  datatype State = State(now: nat, cache: Option<Entry>, readers: map<nat, Reader>)

  datatype Action = Write | Invalidate | Call(r: nat) | Stat(r: nat) | Look(r: nat) | Read(r: nat) | Store(r: nat)

  /** One atomic step, if it can be taken. The file goes through the versions vs in their order. */
  function Step(vs: seq<Version>, st: State, a: Action): Option<State>
    requires st.now < |vs|
  {
    match a
    case Write => if st.now + 1 < |vs| then Some(st.(now := st.now + 1)) else None
    case Invalidate => Some(st.(cache := None))
    case Call(r) => if r in st.readers then None else Some(st.(readers := st.readers[r := Called(st.now)]))
    case _ =>
      if a.r !in st.readers then None
      else
        match StepReader(vs[st.now], st, a, st.readers[a.r])
        case None => None
        case Some((reader, cache)) => Some(State(st.now, cache, st.readers[a.r := reader]))
  }

  function StepReader(disk: Version, st: State, a: Action, reader: Reader): Option<(Reader, Option<Entry>)> {
    match (a, reader)
    case (Stat(_), Called(since)) => Some((Statted(since, KeyOf(disk)), st.cache))
    case (Look(_), Statted(since, key)) =>
      Some((if Hit(st.cache, key).Some? then Returned(since, st.now, st.cache.value.content) else Missed(since, key),
        st.cache))
    case (Read(_), Missed(since, key)) =>
      Some((Held(since, key, if key.present then ContentOf(disk) else ""), st.cache))
    case (Store(_), Held(since, key, content)) =>
      Some((Returned(since, st.now, content), Some(Entry(key, content))))
    case _ => None
  }

  const START := State(0, None, map[])

  function Run(vs: seq<Version>, st: State, acts: seq<Action>): (r: Option<State>)
    requires st.now < |vs|
    ensures r.Some? ==> r.value.now < |vs|
    decreases |acts|
  {
    if acts == [] then Some(st)
    else
      match Step(vs, st, acts[0])
      case None => None
      case Some(next) => Run(vs, next, acts[1..])
  }

  /** A call returned what the file held at some moment between its beginning and its end. */
  ghost predicate Fresh(vs: seq<Version>, reader: Reader) {
    reader.Returned? ==> exists v :: reader.since <= v <= reader.until && v < |vs| && reader.content == ContentOf(vs[v])
  }

  ghost predicate AllFresh(vs: seq<Version>, readers: map<nat, Reader>) {
    forall r :: r in readers ==> Fresh(vs, readers[r])
  }

  /** Stats tell versions apart: when one comes back, nothing in between held anything else. */
  ghost predicate StatsTell(vs: seq<Version>) {
    forall i, k, j :: 0 <= i <= k <= j < |vs| && SameStat(vs[i], vs[j]) ==> ContentOf(vs[k]) == ContentOf(vs[j])
  }

  predicate SameStat(v: Version, w: Version) {
    v.File? && w.File? && KeyOf(v) == KeyOf(w)
  }

  // ----- with telling stats every call is fresh ------------------------------------------------------------

  /** A key and a content that one reader took from versions a and b. */
  ghost predicate Taken(vs: seq<Version>, key: Key, content: Content, a: nat, b: nat) {
    a <= b < |vs| && key == KeyOf(vs[a]) && content == Loaded(vs[a], vs[b])
  }

  ghost predicate TakenBetween(vs: seq<Version>, key: Key, content: Content, lo: nat, hi: nat) {
    exists a: nat, b: nat :: lo <= a && b <= hi && Taken(vs, key, content, a, b)
  }

  ghost predicate SeenBetween(vs: seq<Version>, key: Key, lo: nat, hi: nat) {
    exists a :: lo <= a <= hi && a < |vs| && key == KeyOf(vs[a])
  }

  ghost predicate ReaderInv(vs: seq<Version>, now: nat, reader: Reader) {
    match reader
    case Called(since) => since <= now
    case Statted(since, key) => since <= now && SeenBetween(vs, key, since, now)
    case Missed(since, key) => since <= now && SeenBetween(vs, key, since, now)
    case Held(since, key, content) => since <= now && TakenBetween(vs, key, content, since, now)
    case Returned(_, _, _) => Fresh(vs, reader)
  }

  ghost predicate Inv(vs: seq<Version>, st: State) {
    && st.now < |vs|
    && (st.cache.Some? ==> TakenBetween(vs, st.cache.value.key, st.cache.value.content, 0, st.now))
    && forall r :: r in st.readers ==> ReaderInv(vs, st.now, st.readers[r])
  }

  lemma {:induction false} TakenLater(vs: seq<Version>, key: Key, content: Content, lo: nat, hi: nat, later: nat)
    requires hi <= later && TakenBetween(vs, key, content, lo, hi)
    ensures TakenBetween(vs, key, content, lo, later) && TakenBetween(vs, key, content, 0, later)
  {
    var a: nat, b: nat :| lo <= a && b <= hi && Taken(vs, key, content, a, b);
  }

  lemma {:induction false} ReaderLater(vs: seq<Version>, now: nat, later: nat, reader: Reader)
    requires now <= later && ReaderInv(vs, now, reader)
    ensures ReaderInv(vs, later, reader)
  {
    match reader
    case Held(since, key, content) => TakenLater(vs, key, content, since, now, later);
    case _ =>
  }

  /** A hit is fresh: what the entry holds was read no earlier than the reader's stat, or stands for the same. */
  lemma {:induction false} HitIsFresh(vs: seq<Version>, now: nat, e: Entry, since: nat)
    requires StatsTell(vs) && now < |vs| && TakenBetween(vs, e.key, e.content, 0, now) &&
      SeenBetween(vs, e.key, since, now)
    ensures Fresh(vs, Returned(since, now, e.content))
  {
    var a: nat, b: nat :| 0 <= a && b <= now && Taken(vs, e.key, e.content, a, b);
    var v :| since <= v <= now && v < |vs| && e.key == KeyOf(vs[v]);
    if b > v {
      if vs[a].Missing? { assert e.content == ContentOf(vs[v]); } else { assert e.content == ContentOf(vs[b]); }
    } else {
      assert vs[a].File? ==> SameStat(vs[a], vs[v]) && a <= b <= v;
      assert e.content == ContentOf(vs[v]);
    }
  }

  /** A read is fresh: a version that was there when the reader looked. */
  lemma {:induction false} HeldIsFresh(vs: seq<Version>, now: nat, since: nat, key: Key, content: Content)
    requires TakenBetween(vs, key, content, since, now)
    ensures Fresh(vs, Returned(since, now, content))
  {
    var a: nat, b: nat :| since <= a && b <= now && Taken(vs, key, content, a, b);
    if vs[a].Missing? { assert content == ContentOf(vs[a]); } else { assert content == ContentOf(vs[b]); }
  }

  lemma {:induction false} ReadTakes(vs: seq<Version>, now: nat, since: nat, key: Key)
    requires now < |vs| && SeenBetween(vs, key, since, now)
    ensures TakenBetween(vs, key, if key.present then ContentOf(vs[now]) else "", since, now)
  {
    var a :| since <= a <= now && a < |vs| && key == KeyOf(vs[a]);
    assert Taken(vs, key, if key.present then ContentOf(vs[now]) else "", a, now);
  }

  lemma {:induction false} StepReaderKeeps(vs: seq<Version>, st: State, a: Action, reader: Reader)
    requires StatsTell(vs) && Inv(vs, st) && ReaderInv(vs, st.now, reader)
    ensures var n := StepReader(vs[st.now], st, a, reader);
      n.Some? ==>
        && ReaderInv(vs, st.now, n.value.0)
        && (n.value.1.Some? ==> TakenBetween(vs, n.value.1.value.key, n.value.1.value.content, 0, st.now))
  {
    match (a, reader)
    case (Stat(_), Called(since)) => assert SeenBetween(vs, KeyOf(vs[st.now]), since, st.now);
    case (Look(_), Statted(since, key)) =>
      if Hit(st.cache, key).Some? { HitIsFresh(vs, st.now, st.cache.value, since); }
    case (Read(_), Missed(since, key)) => ReadTakes(vs, st.now, since, key);
    case (Store(_), Held(since, key, content)) =>
      HeldIsFresh(vs, st.now, since, key, content);
      TakenLater(vs, key, content, since, st.now, st.now);
    case _ =>
  }

  lemma {:induction false} WriteKeeps(vs: seq<Version>, st: State)
    requires Inv(vs, st) && st.now + 1 < |vs|
    ensures Inv(vs, st.(now := st.now + 1))
  {
    forall r | r in st.readers ensures ReaderInv(vs, st.now + 1, st.readers[r]) {
      ReaderLater(vs, st.now, st.now + 1, st.readers[r]);
    }
    if st.cache.Some? { TakenLater(vs, st.cache.value.key, st.cache.value.content, 0, st.now, st.now + 1); }
  }

  lemma {:induction false} StepKeeps(vs: seq<Version>, st: State, a: Action)
    requires StatsTell(vs) && Inv(vs, st)
    ensures Step(vs, st, a).Some? ==> Inv(vs, Step(vs, st, a).value)
  {
    var next := Step(vs, st, a);
    if next.Some? {
      match a
      case Write => WriteKeeps(vs, st);
      case Invalidate =>
      case Call(r) =>
      case _ => StepReaderKeeps(vs, st, a, st.readers[a.r]);
    }
  }

  lemma {:induction false} RunKeeps(vs: seq<Version>, st: State, acts: seq<Action>)
    requires StatsTell(vs) && Inv(vs, st)
    ensures Run(vs, st, acts).Some? ==> Inv(vs, Run(vs, st, acts).value)
    decreases |acts|
  {
    if acts != [] {
      StepKeeps(vs, st, acts[0]);
      var next := Step(vs, st, acts[0]);
      if next.Some? { RunKeeps(vs, next.value, acts[1..]); }
    }
  }

  /** An entry whose key matches the file holds what is in the file. */
  lemma {:induction false} MatchingEntryIsCurrent(vs: seq<Version>, acts: seq<Action>)
    requires vs != [] && StatsTell(vs) && Run(vs, START, acts).Some?
    ensures var st := Run(vs, START, acts).value;
      Hit(st.cache, KeyOf(vs[st.now])).Some? ==> st.cache.value.content == ContentOf(vs[st.now])
  {
    RunKeeps(vs, START, acts);
    var st := Run(vs, START, acts).value;
    if Hit(st.cache, KeyOf(vs[st.now])).Some? {
      var e := st.cache.value;
      var a: nat, b: nat :| 0 <= a && b <= st.now && Taken(vs, e.key, e.content, a, b);
      assert vs[a].File? ==> SameStat(vs[a], vs[st.now]) && a <= b <= st.now;
    }
  }

  // ----- without, some call is stale -----------------------------------------------------------------------

  lemma {:induction false} RunThen(vs: seq<Version>, st: State, first: seq<Action>, rest: seq<Action>)
    requires st.now < |vs| && Run(vs, st, first).Some?
    ensures Run(vs, st, first + rest) == Run(vs, Run(vs, st, first).value, rest)
    decreases |first|
  {
    if first == [] {
      assert first + rest == rest;
    } else {
      assert (first + rest)[1..] == first[1..] + rest;
      RunThen(vs, Step(vs, st, first[0]).value, first[1..], rest);
    }
  }

  /** n saves as the app makes them: each write is followed by an invalidation. */
  function Saves(n: nat): seq<Action> {
    if n == 0 then [] else [Write, Invalidate] + Saves(n - 1)
  }

  lemma {:induction false} RunSaves(vs: seq<Version>, st: State, n: nat)
    requires st.now + n < |vs| && st.cache == None
    ensures Run(vs, st, Saves(n)) == Some(st.(now := st.now + n))
    decreases n
  {
    if n > 0 {
      var one := st.(now := st.now + 1);
      var acts := Saves(n);
      assert acts[0] == Write && acts[1..][0] == Invalidate && acts[1..][1..] == Saves(n - 1);
      RunSaves(vs, one, n - 1);
    }
  }

  lemma {:induction false} RunOne(vs: seq<Version>, st: State, a: Action, rest: seq<Action>)
    requires st.now < |vs| && Step(vs, st, a).Some?
    ensures Run(vs, st, [a] + rest) == Run(vs, Step(vs, st, a).value, rest)
  {
    assert ([a] + rest)[1..] == rest;
  }

  /** The first reader looks and misses, and reads after k - i more saves. */
  function ReadLate(i: nat, k: nat, rest: seq<Action>): seq<Action>
    requires i <= k
  {
    Saves(i) + ([Call(0), Stat(0), Look(0)] + (Saves(k - i) + ([Read(0)] + rest)))
  }

  /** It stores after j - k more saves; the second reader comes after that. */
  function StoreLate(k: nat, j: nat): seq<Action>
    requires k <= j
  {
    Saves(j - k) + [Store(0), Call(1), Stat(1), Look(1)]
  }

  lemma {:induction false} ReadsLate(vs: seq<Version>, i: nat, k: nat, rest: seq<Action>)
    requires i <= k < |vs| && KeyOf(vs[i]).present
    ensures Run(vs, START, ReadLate(i, k, rest))
         == Run(vs, State(k, None, map[0 := Held(i, KeyOf(vs[i]), ContentOf(vs[k]))]), rest)
  {
    var key := KeyOf(vs[i]);
    var middle := Saves(k - i) + ([Read(0)] + rest);
    RunSaves(vs, START, i);
    RunThen(vs, START, Saves(i), [Call(0), Stat(0), Look(0)] + middle);
    FirstReader(vs, State(i, None, map[]), middle);
    MissedReads(vs, State(i, None, map[0 := Missed(i, key)]), i, key, k, rest);
  }

  lemma {:induction false} MissedReads(vs: seq<Version>, st: State, i: nat, key: Key, k: nat, rest: seq<Action>)
    requires i <= k < |vs| && key.present && st == State(i, None, map[0 := Missed(i, key)])
    ensures Run(vs, st, Saves(k - i) + ([Read(0)] + rest))
         == Run(vs, State(k, None, map[0 := Held(i, key, ContentOf(vs[k]))]), rest)
  {
    var late := st.(now := k);
    RunSaves(vs, st, k - i);
    RunThen(vs, st, Saves(k - i), [Read(0)] + rest);
    RunOne(vs, late, Read(0), rest);
    assert Step(vs, late, Read(0)).value == State(k, None, map[0 := Held(i, key, ContentOf(vs[k]))]);
  }

  lemma {:induction false} StoresLate(vs: seq<Version>, i: nat, k: nat, j: nat)
    requires i <= k <= j < |vs| && SameStat(vs[i], vs[j])
    ensures Run(vs, State(k, None, map[0 := Held(i, KeyOf(vs[i]), ContentOf(vs[k]))]), StoreLate(k, j))
         == Some(StaleState(vs, i, k, j))
  {
    var held := State(k, None, map[0 := Held(i, KeyOf(vs[i]), ContentOf(vs[k]))]);
    RunSaves(vs, held, j - k);
    RunThen(vs, held, Saves(j - k), [Store(0), Call(1), Stat(1), Look(1)]);
    SecondReader(vs, held.(now := j), i, k);
  }

  /**
    A reader that was slow: it saw version i, read version k, and stored after version j was saved and the cache
    dropped. The next reader, with only version j there during its whole call, gets the content of version k.
   */
  lemma {:induction false} StaleRun(vs: seq<Version>, i: nat, k: nat, j: nat) returns (acts: seq<Action>)
    requires i <= k <= j < |vs| && SameStat(vs[i], vs[j])
    ensures Run(vs, START, acts) == Some(StaleState(vs, i, k, j))
  {
    acts := ReadLate(i, k, StoreLate(k, j));
    ReadsLate(vs, i, k, StoreLate(k, j));
    StoresLate(vs, i, k, j);
  }

  function StaleState(vs: seq<Version>, i: nat, k: nat, j: nat): State
    requires i <= k <= j < |vs|
  {
    State(j, Some(Entry(KeyOf(vs[i]), ContentOf(vs[k]))),
          map[0 := Returned(i, j, ContentOf(vs[k])), 1 := Returned(j, j, ContentOf(vs[k]))])
  }

  lemma {:induction false} FirstReader(vs: seq<Version>, st: State, rest: seq<Action>)
    requires st.now < |vs| && st == State(st.now, None, map[])
    ensures Run(vs, st, [Call(0), Stat(0), Look(0)] + rest)
         == Run(vs, State(st.now, None, map[0 := Missed(st.now, KeyOf(vs[st.now]))]), rest)
  {
    var a, b := State(st.now, None, map[0 := Called(st.now)]),
      State(st.now, None, map[0 := Statted(st.now, KeyOf(vs[st.now]))]);
    assert [Call(0), Stat(0), Look(0)] + rest == [Call(0)] + ([Stat(0)] + ([Look(0)] + rest));
    RunOne(vs, st, Call(0), [Stat(0)] + ([Look(0)] + rest));
    RunOne(vs, a, Stat(0), [Look(0)] + rest);
    assert Step(vs, a, Stat(0)).value == b;
    RunOne(vs, b, Look(0), rest);
    assert Step(vs, b, Look(0)).value == State(st.now, None, map[0 := Missed(st.now, KeyOf(vs[st.now]))]);
  }

  lemma {:induction false} SecondReader(vs: seq<Version>, st: State, i: nat, k: nat)
    requires i <= k <= st.now < |vs| && SameStat(vs[i], vs[st.now])
    requires st == State(st.now, None, map[0 := Held(i, KeyOf(vs[i]), ContentOf(vs[k]))])
    ensures Run(vs, st, [Store(0), Call(1), Stat(1), Look(1)]) == Some(StaleState(vs, i, k, st.now))
  {
    var j, c, e := st.now, ContentOf(vs[k]), Some(Entry(KeyOf(vs[i]), ContentOf(vs[k])));
    var done := Returned(i, j, c);
    var s1, s2 := State(j, e, map[0 := done]), State(j, e, map[0 := done, 1 := Called(j)]);
    var s3 := State(j, e, map[0 := done, 1 := Statted(j, KeyOf(vs[j]))]);
    assert [Store(0), Call(1), Stat(1), Look(1)] == [Store(0)] + ([Call(1)] + ([Stat(1)] + ([Look(1)] + [])));
    RunOne(vs, st, Store(0), [Call(1)] + ([Stat(1)] + ([Look(1)] + [])));
    assert Step(vs, st, Store(0)).value == s1;
    RunOne(vs, s1, Call(1), [Stat(1)] + ([Look(1)] + []));
    assert Step(vs, s1, Call(1)).value == s2;
    RunOne(vs, s2, Stat(1), [Look(1)] + []);
    assert Step(vs, s2, Stat(1)).value == s3;
    RunOne(vs, s3, Look(1), []);
    assert Step(vs, s3, Look(1)).value == StaleState(vs, i, k, j);
  }

  /** Every call of every run returns what the file held during the call. */
  ghost predicate AlwaysFresh(vs: seq<Version>)
    requires vs != []
  {
    forall acts :: RunFresh(vs, acts)
  }

  ghost predicate RunFresh(vs: seq<Version>, acts: seq<Action>)
    requires vs != []
  {
    var st := Run(vs, START, acts);
    st.Some? ==> AllFresh(vs, st.value.readers)
  }

  lemma {:induction false} TellingRunFresh(vs: seq<Version>, acts: seq<Action>)
    requires vs != [] && StatsTell(vs)
    ensures RunFresh(vs, acts)
  {
    RunKeeps(vs, START, acts);
  }

  lemma {:induction false} StaleRunNotFresh(vs: seq<Version>, i: nat, k: nat, j: nat)
    requires i <= k <= j < |vs| && SameStat(vs[i], vs[j]) && ContentOf(vs[k]) != ContentOf(vs[j])
    ensures !AlwaysFresh(vs)
  {
    var acts := StaleRun(vs, i, k, j);
    assert !Fresh(vs, StaleState(vs, i, k, j).readers[1]);
    assert !RunFresh(vs, acts);
  }

  /**
    Cache linearizability: every call of every run, whatever the number of readers and however the steps mix,
    returns what the file held during that call, if and only if stats tell the versions of the file apart.
   */
  lemma {:induction false} FreshIffStatsTell(vs: seq<Version>)
    requires vs != []
    ensures AlwaysFresh(vs) <==> StatsTell(vs)
  {
    if StatsTell(vs) {
      forall acts ensures RunFresh(vs, acts) { TellingRunFresh(vs, acts); }
    } else {
      var i: nat, k: nat, j: nat :| i <= k <= j < |vs| && SameStat(vs[i], vs[j]) &&
        ContentOf(vs[k]) != ContentOf(vs[j]);
      StaleRunNotFresh(vs, i, k, j);
    }
  }

  /** In particular when every version of the file has a stat of its own. */
  lemma {:induction false} OwnStatsTell(vs: seq<Version>)
    requires forall i, j :: 0 <= i < j < |vs| ==> !SameStat(vs[i], vs[j])
    ensures StatsTell(vs)
  {
  }
}
