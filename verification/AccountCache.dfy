/** The cache of the parsed account file. A reader stats the file and takes the
    cached accounts if the stamp is the cached one; otherwise it opens, stats
    and reads the file and caches what it parsed if the stamp is old enough.
    Readers run beside each other and beside programs that edit, replace and
    remove the file. Every step of a reader is a step here; times are whole
    nanoseconds of one clock that never goes back. */
module AccountCache {
  import opened Shared
  import Accounts

  const SETTLE := 5_000_000_000

  /** What stat tells about a file; `sys` stands for inode, device and change
      time where the platform has them. */
  datatype Stamp = Stamp(size: nat, modTime: int, sys: int)

  datatype Version = Version(stamp: Stamp, content: string)

  datatype Entry = Entry(stamp: Stamp, content: string)

  /** What a reader has seen: the contents that were at the path (None while
      there was no file), and whether the file was edited in place. */
  datatype View = View(contents: set<Option<string>>, edited: bool)

  /** Where a reader is. `seen` is what was at the path since the call began,
      `open` since the file was opened. */
  datatype Reader =
    | Idle
    | Statted(stamp: Stamp, seen: View)
    | Opened(stamp: Stamp, at: int, changes: nat, open: View, seen: View)
    | Got(stamp: Stamp, at: int, changes: nat, open: View, seen: View, data: string)
    | Done(result: Option<string>, seen: View)

  datatype State = State(now: int, file: Option<Version>, changes: nat, cache: Option<Entry>, readers: seq<Reader>)

  /** `lag` bounds how far a modification time is behind the change that it
      belongs to: the tick of the file system, and for a replacement the time
      since the new file was written. `delay` bounds the time between a
      reader's fstat and its last look at the clock. */
  datatype Bounds = Bounds(lag: int, delay: int)

  predicate Settled(s: Stamp, now: int) {
    now - s.modTime >= SETTLE
  }

  datatype Label =
    | Advance(time: int)
    | Change(version: Version, inPlace: bool)
    | Remove
    | Stat(i: nat)
    | Hit(i: nat)
    | Miss(i: nat)
    | Data(i: nat, data: string)
    | Store(i: nat, keep: bool)
    | Return(i: nat)

  function ContentOf(f: Option<Version>): Option<string> {
    if f.None? then None else Some(f.value.content)
  }

  function Seeing(c: Option<string>): View {
    View({c}, false)
  }

  function Also(v: View, c: Option<string>, edit: bool): View {
    View(v.contents + {c}, v.edited || edit)
  }

  predicate Within(a: View, b: View) {
    a.contents <= b.contents && (a.edited ==> b.edited)
  }

  /** A read sees one of the contents, or in an edited file a mixture of them:
      any text. */
  predicate MayRead(v: View, data: string) {
    Some(data) in v.contents || v.edited
  }

  /** A reader in a call takes note of what is at the path now. */
  function Note(r: Reader, c: Option<string>, edit: bool): Reader {
    match r
    case Idle => r
    case Statted(stamp, seen) => Statted(stamp, Also(seen, c, edit))
    case Opened(stamp, at, changes, open, seen) => Opened(stamp, at, changes, Also(open, c, edit), Also(seen, c, edit))
    case Got(stamp, at, changes, open, seen, data) =>
        Got(stamp, at, changes, Also(open, c, edit), Also(seen, c, edit), data)
    case Done(_, _) => r
  }

  function NoteAll(readers: seq<Reader>, c: Option<string>, edit: bool): (r: seq<Reader>)
    ensures |r| == |readers|
  {
    seq(|readers|, i requires 0 <= i < |readers| => Note(readers[i], c, edit))
  }

  /** The steps of the environment. */
  predicate Outside(b: Bounds, s: State, l: Label, s': State) {
    match l
    case Advance(time) => time >= s.now && s' == s.(now := time)
    case Change(version, inPlace) =>
      && s.now - b.lag < version.stamp.modTime <= s.now
      && s' == s.(file := Some(version), changes := s.changes + 1,
                  readers := NoteAll(s.readers, Some(version.content), inPlace))
    case Remove => s' == s.(file := None, changes := s.changes + 1, readers := NoteAll(s.readers, None, false))
    case _ => false
  }

  /** The steps of reader `i`, in the order of readLocked. */
  predicate Reads(b: Bounds, s: State, l: Label, i: nat, r': Reader, cache': Option<Entry>)
    requires i < |s.readers|
  {
    var r := s.readers[i];
    match l
    case Stat(_) =>
      r.Idle? && if s.file.None? then r' == Done(None, Seeing(None)) && cache' == None
                 else r' == Statted(s.file.value.stamp, Seeing(ContentOf(s.file))) && cache' == s.cache
    case Hit(_) =>
      && r.Statted? && s.cache.Some? && Settled(s.cache.value.stamp, s.now) && s.cache.value.stamp == r.stamp
      && r' == Done(Some(s.cache.value.content), r.seen) && cache' == s.cache
    case Miss(_) =>
      && r.Statted? && !(s.cache.Some? && Settled(s.cache.value.stamp, s.now) && s.cache.value.stamp == r.stamp)
      && if s.file.None? then r' == Done(None, r.seen) && cache' == None
         else r' == Opened(s.file.value.stamp, s.now, s.changes, Seeing(ContentOf(s.file)), r.seen) && cache' == s.cache
    case Data(_, data) =>
      r.Opened? && MayRead(r.open, data) && r' == Got(r.stamp, r.at, r.changes, r.open, r.seen, data)
          && cache' == s.cache
    case Store(_, keep) =>
      && r.Got? && s.now <= r.at + b.delay && r' == Done(Some(r.data), r.seen)
      && cache' == if keep && Settled(r.stamp, s.now) then Some(Entry(r.stamp, r.data)) else None
    case Return(_) => r.Done? && r' == Idle && cache' == s.cache
    case _ => false
  }

  predicate ReaderStep(b: Bounds, s: State, l: Label, s': State) {
    && (l.Stat? || l.Hit? || l.Miss? || l.Data? || l.Store? || l.Return?) && l.i < |s.readers| == |s'.readers|
    && Reads(b, s, l, l.i, s'.readers[l.i], s'.cache)
    && s' == s.(cache := s'.cache, readers := s.readers[l.i := s'.readers[l.i]])
  }

  predicate Step(b: Bounds, s: State, l: Label, s': State) {
    Outside(b, s, l, s') || ReaderStep(b, s, l, s')
  }

  predicate Start(s: State) {
    s.cache == None && forall i :: 0 <= i < |s.readers| ==> s.readers[i] == Idle
  }

  predicate Run(b: Bounds, states: seq<State>, labels: seq<Label>) {
    && |states| == |labels| + 1 && Start(states[0])
    && forall k :: 0 <= k < |labels| ==> Step(b, states[k], labels[k], states[k + 1])
  }

  /** Every finished call returned what was at the path at some moment of it;
      only a call during which the file was edited in place may return a mixture
      of what was there. */
  predicate Fresh(s: State) {
    forall i :: 0 <= i < |s.readers| ==> DoneOk(s.readers[i])
  }

  predicate DoneOk(r: Reader) {
    r.Done? ==> r.result in r.seen.contents || (r.result.Some? && r.seen.edited)
  }

  // ------------------------------------------------------------- the invariant

  predicate HasOpen(r: Reader) {
    r.Opened? || r.Got?
  }

  /** The cached stamp stands for the cached content, now and after any later
      change. */
  predicate EntryOk(b: Bounds, s: State) {
    s.cache.Some? ==>
      && s.cache.value.stamp.modTime <= s.now - b.lag
      && (s.file.Some? && s.file.value.stamp == s.cache.value.stamp ==> s.file.value.content == s.cache.value.content)
  }

  /** What a reader knows of the file it opened: it is unchanged, or what is
      there now has a later time. */
  predicate OpenOk(b: Bounds, s: State, r: Reader) {
    HasOpen(r) ==>
      && r.at <= s.now && r.changes <= s.changes && Within(r.open, r.seen) && (r.Got? ==> MayRead(r.open, r.data))
      && (r.changes == s.changes ==>
            s.file.Some? && s.file.value.stamp == r.stamp && r.open == Seeing(ContentOf(s.file)))
      && (r.changes < s.changes && s.file.Some? ==> s.file.value.stamp.modTime > r.at - b.lag)
  }

  predicate NowSeen(s: State, r: Reader) {
    r.Statted? || HasOpen(r) ==> ContentOf(s.file) in r.seen.contents
  }

  /** A reader that may take an entry has seen its content or the edit that made
      it a mixture. */
  predicate CacheSeen(s: State, r: Reader) {
    r.Statted? && s.cache.Some? && s.cache.value.stamp == r.stamp ==> MayRead(r.seen, s.cache.value.content)
  }

  /** `a` may take what `o` is going to store only if it has seen it. */
  predicate PairOk(b: Bounds, a: Reader, o: Reader) {
    a.Statted? && HasOpen(o) && a.stamp == o.stamp ==> Within(o.open, a.seen) || o.stamp.modTime > o.at - b.lag
  }

  predicate ReaderOk(b: Bounds, s: State, r: Reader) {
    OpenOk(b, s, r) && NowSeen(s, r) && CacheSeen(s, r) && DoneOk(r)
  }

  predicate Inv(b: Bounds, s: State) {
    && EntryOk(b, s)
    && (forall i :: 0 <= i < |s.readers| ==> ReaderOk(b, s, s.readers[i]))
    && (forall i, j :: 0 <= i < |s.readers| && 0 <= j < |s.readers| ==> PairOk(b, s.readers[i], s.readers[j]))
  }

  predicate Enough(b: Bounds) {
    b.lag > 0 && b.delay >= 0 && b.delay + b.lag <= SETTLE
  }

  lemma AdvanceKeeps(b: Bounds, s: State, s': State)
    requires Inv(b, s) && s' == s.(now := s'.now) && s'.now >= s.now
    ensures Inv(b, s')
  {
    forall i | 0 <= i < |s'.readers| ensures ReaderOk(b, s', s'.readers[i]) {
      assert ReaderOk(b, s, s.readers[i]);
    }
  }

  /** A change of the file, or its removal. */
  lemma ChangeKeeps(b: Bounds, s: State, edit: bool, s': State)
    requires Inv(b, s) && s'.now == s.now && s'.changes == s.changes + 1 && s'.cache == s.cache
    requires s'.readers == NoteAll(s.readers, ContentOf(s'.file), edit)
    requires s'.file.Some? ==> s'.file.value.stamp.modTime > s.now - b.lag
    ensures Inv(b, s')
  {
    forall i | 0 <= i < |s'.readers| ensures ReaderOk(b, s', s'.readers[i]) {
      assert ReaderOk(b, s, s.readers[i]);
    }
    forall i, j | 0 <= i < |s'.readers| && 0 <= j < |s'.readers| ensures PairOk(b, s'.readers[i], s'.readers[j]) {
      assert PairOk(b, s.readers[i], s.readers[j]);
    }
  }

  /** The reader's own step, seen from itself and from the cache. */
  lemma ReadsOk(b: Bounds, s: State, l: Label, i: nat, s': State)
    requires Enough(b) && Inv(b, s) && i < |s.readers| == |s'.readers| && Reads(b, s, l, i, s'.readers[i], s'.cache)
    requires s' == s.(cache := s'.cache, readers := s.readers[i := s'.readers[i]])
    ensures EntryOk(b, s') && ReaderOk(b, s', s'.readers[i])
  {
    assert ReaderOk(b, s, s.readers[i]);
  }

  /** Another reader may take what was just stored only if it has seen it. */
  lemma OthersOk(b: Bounds, s: State, l: Label, i: nat, s': State, k: nat)
    requires Enough(b) && Inv(b, s) && i < |s.readers| == |s'.readers| && Reads(b, s, l, i, s'.readers[i], s'.cache)
    requires s' == s.(cache := s'.cache, readers := s.readers[i := s'.readers[i]])
    requires k < |s.readers| && k != i
    ensures ReaderOk(b, s', s'.readers[k])
  {
    assert ReaderOk(b, s, s.readers[k]) && ReaderOk(b, s, s.readers[i]) && PairOk(b, s.readers[k], s.readers[i]);
  }

  lemma PairsOk(b: Bounds, s: State, l: Label, i: nat, s': State, k: nat)
    requires Inv(b, s) && i < |s.readers| == |s'.readers| && Reads(b, s, l, i, s'.readers[i], s'.cache)
    requires s' == s.(cache := s'.cache, readers := s.readers[i := s'.readers[i]])
    requires k < |s.readers|
    ensures PairOk(b, s'.readers[k], s'.readers[i]) && PairOk(b, s'.readers[i], s'.readers[k])
  {
    assert ReaderOk(b, s, s.readers[k]) && ReaderOk(b, s, s.readers[i]);
    assert PairOk(b, s.readers[k], s.readers[i]) && PairOk(b, s.readers[i], s.readers[k]);
  }

  lemma StepKeeps(b: Bounds, s: State, l: Label, s': State)
    requires Enough(b) && Inv(b, s) && Step(b, s, l, s')
    ensures Inv(b, s')
  {
    if Outside(b, s, l, s') {
      if l.Advance? {
        AdvanceKeeps(b, s, s');
      } else {
        ChangeKeeps(b, s, l.Change? && l.inPlace, s');
      }
    } else {
      ReadsOk(b, s, l, l.i, s');
      forall k | 0 <= k < |s'.readers| ensures ReaderOk(b, s', s'.readers[k]) {
        if k != l.i {
          OthersOk(b, s, l, l.i, s', k);
        }
      }
      forall j, k | 0 <= j < |s'.readers| && 0 <= k < |s'.readers| ensures PairOk(b, s'.readers[j], s'.readers[k]) {
        if j == l.i {
          PairsOk(b, s, l, l.i, s', k);
        } else if k == l.i {
          PairsOk(b, s, l, l.i, s', j);
        } else {
          assert PairOk(b, s.readers[j], s.readers[k]);
        }
      }
    }
  }

  lemma {:induction false} RunInv(b: Bounds, states: seq<State>, labels: seq<Label>, k: nat)
    requires Enough(b) && Run(b, states, labels) && k < |states|
    ensures Inv(b, states[k])
    decreases k
  {
    if k > 0 {
      RunInv(b, states, labels, k - 1);
      assert Step(b, states[k - 1], labels[k - 1], states[k - 1 + 1]);
      StepKeeps(b, states[k - 1], labels[k - 1], states[k]);
    }
  }

  // ------------------------------------------------------------ when it agrees

  ghost predicate AlwaysFresh(b: Bounds) {
    forall states, labels, k :: Run(b, states, labels) && 0 <= k < |states| ==> Fresh(states[k])
  }

  /** If the lag of a modification time and the delay of a reader together stay
      within settleTime, every call of every run returns what was in the file
      during the call: a mixture only if the file was edited during the call, so
      a mixture that was cached is never served to a later one. */
  lemma CacheAgrees(b: Bounds, states: seq<State>, labels: seq<Label>, k: nat)
    requires Enough(b) && Run(b, states, labels) && k < |states|
    ensures Fresh(states[k])
  {
    RunInv(b, states, labels, k);
    forall i | 0 <= i < |states[k].readers| ensures DoneOk(states[k].readers[i]) {
      assert ReaderOk(b, states[k], states[k].readers[i]);
    }
  }

  const STAMP := Stamp(1, 0, 0)

  /** The labels of a run in which a slow reader caches the old content under
      the stamp of a file that was edited within the same tick. */
  function StaleLabels(b: Bounds): seq<Label> {
    [Change(Version(STAMP, "a"), false), Advance(b.lag - 1), Stat(0), Miss(0), Data(0, "a"),
     Change(Version(STAMP, "b"), true), Advance(b.lag - 1 + b.delay), Store(0, true), Stat(1), Hit(1)]
  }

  function StaleStates(b: Bounds): seq<State> {
    var a, c := Some("a"), Some("b");
    var va, vb := Some(Version(STAMP, "a")), Some(Version(STAMP, "b"));
    var t, u := b.lag - 1, b.lag - 1 + b.delay;
    var v, w := Seeing(a), View({a, c}, true);
    var e := Some(Entry(STAMP, "a"));
    [State(0, None, 0, None, [Idle, Idle]),
     State(0, va, 1, None, [Idle, Idle]),
     State(t, va, 1, None, [Idle, Idle]),
     State(t, va, 1, None, [Statted(STAMP, v), Idle]),
     State(t, va, 1, None, [Opened(STAMP, t, 1, v, v), Idle]),
     State(t, va, 1, None, [Got(STAMP, t, 1, v, v, "a"), Idle]),
     State(t, vb, 2, None, [Got(STAMP, t, 1, w, w, "a"), Idle]),
     State(u, vb, 2, None, [Got(STAMP, t, 1, w, w, "a"), Idle]),
     State(u, vb, 2, e, [Done(a, w), Idle]),
     State(u, vb, 2, e, [Done(a, w), Statted(STAMP, Seeing(c))]),
     State(u, vb, 2, e, [Done(a, w), Done(a, Seeing(c))])]
  }

  lemma StaleOutside(b: Bounds, k: nat)
    requires b.lag > 0 && b.delay >= 0 && k in {0, 1, 5, 6}
    ensures Step(b, StaleStates(b)[k], StaleLabels(b)[k], StaleStates(b)[k + 1])
  {
    var s, l, s' := StaleStates(b)[k], StaleLabels(b)[k], StaleStates(b)[k + 1];
    if k == 0 {
      assert s'.readers == NoteAll(s.readers, Some("a"), false);
    } else if k == 5 {
      var a, c: Option<string> := Some("a"), Some("b");
      assert {a, c} == {a} + {c};
      assert s'.readers == NoteAll(s.readers, c, true);
    }
    assert Outside(b, s, l, s');
  }

  lemma StaleReads(b: Bounds, k: nat)
    requires b.lag > 0 && b.delay >= 0 && b.lag + b.delay > SETTLE && k in {2, 3, 4, 7, 8, 9}
    ensures Step(b, StaleStates(b)[k], StaleLabels(b)[k], StaleStates(b)[k + 1])
  {
    var s, l, s' := StaleStates(b)[k], StaleLabels(b)[k], StaleStates(b)[k + 1];
    assert s'.readers == s.readers[l.i := s'.readers[l.i]];
    assert ReaderStep(b, s, l, s');
  }

  /** The bound is sharp: settleTime suffices exactly when it covers the lag of
      the modification times together with the delay of a reader. */
  lemma AgreesExactlyWhen(b: Bounds)
    requires b.lag > 0 && b.delay >= 0
    ensures AlwaysFresh(b) <==> b.delay + b.lag <= SETTLE
  {
    if b.delay + b.lag <= SETTLE {
      forall states, labels, k | Run(b, states, labels) && 0 <= k < |states| ensures Fresh(states[k]) {
        CacheAgrees(b, states, labels, k);
      }
    } else {
      var states, labels := StaleStates(b), StaleLabels(b);
      forall k | 0 <= k < |labels| ensures Step(b, states[k], labels[k], states[k + 1]) {
        if k in {0, 1, 5, 6} {
          StaleOutside(b, k);
        } else {
          StaleReads(b, k);
        }
      }
      assert Run(b, states, labels);
      var c: Option<string> := Some("b");
      assert states[10].readers[1] == Done(Some("a"), Seeing(c));
      assert "a"[0] != "b"[0];
      assert !Fresh(states[10]);
    }
  }

  // ------------------------------------------------- the cache keeps its own copy

  /** The parsed accounts as callers get them: they may change them. */
  class Database {
    var version: int
    var users: array<Accounts.User>

    constructor (version: int, users: array<Accounts.User>)
      ensures this.version == version && this.users == users
    {
      this.version := version;
      this.users := users;
    }

    /** clone: the copy shares nothing that can be changed. */
    method Clone() returns (copy: Database)
      ensures fresh(copy) && fresh(copy.users)
      ensures copy.version == version && copy.users[..] == users[..]
    {
      if users.Length == 0 {
        var none := new Accounts.User[0];
        copy := new Database(version, none);
        return;
      }
      var first := users[0];
      var all := new Accounts.User[users.Length](_ => first);
      for i := 0 to users.Length
        invariant all[..i] == users[..i]
      {
        all[i] := users[i];
      }
      copy := new Database(version, all);
    }
  }

  datatype Parsed = Parsed(version: int, users: seq<Accounts.User>)

  class Cache {
    var stamp: Stamp
    var db: Database?

    ghost function Value(): Option<(Stamp, Parsed)>
      reads this, if db != null then {db, db.users} else {}
    {
      if db == null then None else Some((stamp, Parsed(db.version, db.users[..])))
    }

    constructor ()
      ensures Value() == None
    {
      stamp := STAMP;
      db := null;
    }

    /** readLocked, as one call sees it: `found` is what stat told, `read` the
        stamp and content of the opened file, `now` and `later` are the two
        looks at the clock. A content that does not parse leads to None. */
    method ReadLocked(found: Option<Stamp>, now: int, read: Option<(Stamp, string)>, later: int,
                      parse: string -> Option<Parsed>)
      returns (r: Database?)
      modifies this
      ensures r != null ==> fresh(r) && fresh(r.users)
      ensures db == null || db == old(db) || (fresh(db) && fresh(db.users))
      ensures db != null && r != null ==> db != r && db.users != r.users
      ensures r != null <==> Result(old(Value()), found, now, read, parse).Some?
      ensures r != null ==> Some(Parsed(r.version, r.users[..])) == Result(old(Value()), found, now, read, parse)
      ensures Value() == Next(old(Value()), found, now, read, later, parse)
    {
      if found.None? {
        db := null;
        return null;
      }
      if db != null && Settled(stamp, now) && stamp == found.value {
        r := db.Clone();
        return;
      }
      if read.None? || parse(read.value.1).None? {
        db := null;
        return null;
      }
      var value := parse(read.value.1).value;
      var users := new Accounts.User[|value.users|](i requires 0 <= i < |value.users| => value.users[i]);
      assert users[..] == value.users;
      r := new Database(value.version, users);
      if Settled(read.value.0, later) {
        stamp := read.value.0;
        db := r.Clone();
      } else {
        db := null;
      }
    }
  }

  predicate Takes(cached: Option<(Stamp, Parsed)>, found: Stamp, now: int) {
    cached.Some? && Settled(cached.value.0, now) && cached.value.0 == found
  }

  /** What a call returns. */
  function Result(cached: Option<(Stamp, Parsed)>, found: Option<Stamp>, now: int, read: Option<(Stamp, string)>,
                  parse: string -> Option<Parsed>): Option<Parsed> {
    if found.None? then None
    else if Takes(cached, found.value, now) then Some(cached.value.1)
    else if read.None? then None
    else parse(read.value.1)
  }

  /** What is cached after a call. */
  function Next(cached: Option<(Stamp, Parsed)>, found: Option<Stamp>, now: int, read: Option<(Stamp, string)>,
                later: int, parse: string -> Option<Parsed>):
    Option<(Stamp, Parsed)>
  {
    if found.None? then None
    else if Takes(cached, found.value, now) then cached
    else if read.None? || parse(read.value.1).None? || !Settled(read.value.0, later) then None
    else Some((read.value.0, parse(read.value.1).value))
  }

  /** Whatever a caller does to what it got, the cache holds what it held. */
  method CallerChanges(c: Cache, found: Option<Stamp>, now: int, read: Option<(Stamp, string)>, later: int,
                       parse: string -> Option<Parsed>,
                       version: int, user: Accounts.User)
    modifies c
    ensures c.Value() == Next(old(c.Value()), found, now, read, later, parse)
  {
    var r := c.ReadLocked(found, now, read, later, parse);
    if r != null {
      r.version := version;
      var users := r.users;
      assert c.Value() == Next(old(c.Value()), found, now, read, later, parse);
      for i := 0 to users.Length
        invariant c.db != null ==> c.db.users != users
        invariant c.Value() == Next(old(c.Value()), found, now, read, later, parse)
      {
        users[i] := user;
      }
    }
  }

  // --------------------------------------------- the class takes these steps

  /** The class caches what the steps cache, parsed. */
  predicate Caches(entry: Option<Entry>, cached: Option<(Stamp, Parsed)>, parse: string -> Option<Parsed>) {
    if entry.None? then cached.None?
    else cached.Some? && cached.value.0 == entry.value.stamp && Some(cached.value.1) == parse(entry.value.content)
  }

  /** A call takes the cached accounts exactly when its reader can take the Hit
      step, and then returns what that step returns, parsed. */
  lemma HitIsTaken(b: Bounds, s: State, i: nat, s': State, cached: Option<(Stamp, Parsed)>,
                   read: Option<(Stamp, string)>, parse: string -> Option<Parsed>)
    requires i < |s.readers| && s.readers[i].Statted? && Caches(s.cache, cached, parse)
    ensures var found := s.readers[i].stamp;
      && (Takes(cached, found, s.now) ==> !ReaderStep(b, s, Miss(i), s'))
      && (ReaderStep(b, s, Hit(i), s') ==>
            && Takes(cached, found, s.now) && s'.readers[i].Done? && s'.readers[i].result.Some?
            && Result(cached, Some(found), s.now, read, parse) == parse(s'.readers[i].result.value)
            && Caches(s'.cache, Next(cached, Some(found), s.now, read, s.now, parse), parse))
  {
  }

  /** A call that read the file ends as its Store step does, which keeps an entry
      only if the content parsed. */
  lemma StoreIsNext(b: Bounds, s: State, i: nat, s': State, cached: Option<(Stamp, Parsed)>, found: Stamp, now: int,
                    parse: string -> Option<Parsed>)
    requires i < |s.readers| && s.readers[i].Got? && !Takes(cached, found, now)
    requires ReaderStep(b, s, Store(i, parse(s.readers[i].data).Some?), s')
    ensures var read := Some((s.readers[i].stamp, s.readers[i].data));
      && s'.readers[i].Done? && s'.readers[i].result.Some?
      && Result(cached, Some(found), now, read, parse) == parse(s'.readers[i].result.value)
      && Caches(s'.cache, Next(cached, Some(found), now, read, s.now, parse), parse)
  {
  }
}
