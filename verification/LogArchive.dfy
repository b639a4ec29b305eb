/** The crash-tolerant log archive. A source file grows by appended lines and is
    rewritten when that is not possible; the record in boot.json commits a
    window of it. Writes can fail anywhere: an append may stop after any byte,
    a replacement happens or does not. A failed call leaves the disk as a crash
    at the same point does, and NewArchive models the next start. */
module LogArchive {
  import opened Shared
  import opened Sanitize

  type bytes = seq<byte>

  const FILE_LIMIT := 2 * MAX_BYTES
  const ANCHOR_BYTES := 4096
  const SOURCES: seq<string> := ["system", "kernel", "application"]
  const NL: bytes := [NEWLINE]

  /** A hash without collisions: it is its input, wrapped. */
  datatype Digest = Digest(of: bytes)

  datatype Window = Window(offset: int, length: int, digest: Digest)

  datatype Meta = Meta(lines: nat, truncated: bool, collectedAt: int, window: Window)

  datatype Record = Record(bootId: string, startedAt: int, savedAt: int, sources: map<string, Meta>)

  datatype State = Unavailable | Empty | Ready

  datatype Snapshot = Snapshot(
    source: string, boot: string, state: State, content: string, lines: nat, truncated: bool, collectedAt: int)

  // ------------------------------------------------------ committed windows

  /** The window is inside the file and selects its content and a newline. */
  predicate Selects(file: bytes, w: Window) {
    && 0 <= w.offset && w.length == |w.digest.of| + 1 && w.offset + w.length <= |file|
    && file[w.offset..w.offset + w.length] == w.digest.of + NL
  }

  /** committedSource for a record that has a window. */
  function CommittedSource(data: bytes, w: Window): (bytes, bool) {
    if && 0 <= w.offset <= |data| && 0 < w.length <= MAX_BYTES + 1 && w.length <= |data| - w.offset
       && data[w.offset + w.length - 1] == NEWLINE
       && Digest(data[w.offset..w.offset + w.length - 1]) == w.digest
    then (data[w.offset..w.offset + w.length], false)
    else (data, true)
  }

  /** A window that was written by Save. */
  predicate WindowOk(w: Window) {
    0 <= w.offset && w.length == |w.digest.of| + 1 && |w.digest.of| <= MAX_BYTES
  }

  /** The window selects its content, or the whole file is the newer snapshot. */
  predicate Held(file: bytes, w: Window, newer: bytes) {
    WindowOk(w) && (Selects(file, w) || file == newer + NL)
  }

  /** The window's test passes exactly when the window selects its content. */
  lemma CommittedExactly(data: bytes, w: Window)
    requires WindowOk(w)
    ensures CommittedSource(data, w) == if Selects(data, w) then (w.digest.of + NL, false) else (data, true)
  {
    if 0 <= w.offset && w.offset + w.length <= |data| {
      var c := data[w.offset..w.offset + w.length];
      assert c == data[w.offset..w.offset + w.length - 1] + [data[w.offset + w.length - 1]];
      assert (w.digest.of + NL)[..|w.digest.of|] == w.digest.of;
      assert (w.digest.of + NL)[|w.digest.of|] == NEWLINE;
    }
  }

  /** What is read is the committed snapshot, or the complete newer one, marked
      as recovered. */
  lemma CommittedOrNewer(data: bytes, w: Window, newer: bytes)
    requires Held(data, w, newer)
    ensures CommittedSource(data, w) == (w.digest.of + NL, false) || CommittedSource(data, w) == (newer + NL, true)
  {
    CommittedExactly(data, w);
  }

  /** Nothing appended, complete or torn, changes what a window selects. */
  lemma AppendKeeps(file: bytes, more: bytes, w: Window)
    requires Selects(file, w)
    ensures Selects(file + more, w)
  {
    assert (file + more)[w.offset..w.offset + w.length] == file[w.offset..w.offset + w.length];
  }

  // ---------------------------------------------------------------- appending

  predicate OccursAt(s: bytes, sub: bytes, i: nat) {
    i + |sub| <= |s| && s[i..i + |sub|] == sub
  }

  /** The first place from `i` on where `sub` occurs, or -1. */
  function Index(s: bytes, sub: bytes, i: nat): (at: int)
    ensures at == -1 || (i <= at && OccursAt(s, sub, at))
    decreases |s| - i
  {
    if i + |sub| > |s| then -1 else if OccursAt(s, sub, i) then i else Index(s, sub, i + 1)
  }

  /** The last place before `n` where `sub` occurs, or -1. */
  function LastIndex(s: bytes, sub: bytes, n: nat): (at: int)
    ensures at == -1 || (0 <= at < n && OccursAt(s, sub, at))
  {
    if n == 0 then -1 else if OccursAt(s, sub, n - 1) then n - 1 else LastIndex(s, sub, n - 1)
  }

  function AppendAnchor(content: bytes): bytes {
    if |content| > ANCHOR_BYTES then content[|content| - ANCHOR_BYTES..] else content
  }

  predicate HasSuffix(s: bytes, t: bytes) {
    |t| <= |s| && s[|s| - |t|..] == t
  }

  /** The bytes to append so that a file that ends with `previous` and a newline
      ends with `content` and a newline; None where the file is rewritten. */
  function Delta(previous: bytes, content: bytes): Option<bytes> {
    var anchor := AppendAnchor(previous);
    var at := LastIndex(content, anchor, |content| + 1);
    if previous == [] || at < 0 || Index(content, anchor, 0) != at then None
    else Continued(previous, content, at + |anchor|)
  }

  /** The overlap content[..end] must be whole last lines of `previous`. */
  function Continued(previous: bytes, content: bytes, end: nat): Option<bytes>
    requires end <= |content|
  {
    var begins := |previous| - end;
    if !HasSuffix(previous, content[..end]) then None
    else if begins > 0 && previous[begins - 1] != NEWLINE then None
    else if end == |content| then Some([])
    else if content[end] != NEWLINE then None
    else Some(content[end + 1..] + NL)
  }

  /** The file ends with whole lines that are `content`. */
  predicate Ends(file: bytes, content: bytes) {
    var at := |file| - |content| - 1;
    at >= 0 && file[at..] == content + NL && (at > 0 ==> file[at - 1] == NEWLINE)
  }

  lemma DeltaContinues(previous: bytes, content: bytes) returns (end: nat)
    requires Delta(previous, content).Some?
    ensures previous != [] && end <= |content| && Delta(previous, content) == Continued(previous, content, end)
  {
    var anchor := AppendAnchor(previous);
    end := LastIndex(content, anchor, |content| + 1) + |anchor|;
  }

  /** The incremental form refines the rewrite: after the append the file ends
      with the lines of the new snapshot. */
  lemma AppendRefines(file: bytes, previous: bytes, content: bytes)
    requires Ends(file, previous) && Delta(previous, content).Some?
    ensures Ends(file + Delta(previous, content).value, content)
  {
    var end := DeltaContinues(previous, content);
    ContinuedRefines(file, previous, content, end);
  }

  lemma ContinuedRefines(file: bytes, previous: bytes, content: bytes, end: nat)
    requires end <= |content| && Ends(file, previous) && Continued(previous, content, end).Some?
    ensures Ends(file + Continued(previous, content, end).value, content)
  {
    OverlapEnds(file, previous, content[..end]);
    if end == |content| {
      assert content[..end] == content && file + [] == file;
    } else {
      Glue(file, content[..end], content[end + 1..]);
      SplitAt(content, end);
    }
  }

  lemma SplitAt(content: bytes, end: nat)
    requires end < |content| && content[end] == NEWLINE
    ensures content[..end] + NL + content[end + 1..] == content
  {
  }

  /** A file that ends with lines ends with the last of these lines. */
  lemma OverlapEnds(file: bytes, previous: bytes, overlap: bytes)
    requires Ends(file, previous) && HasSuffix(previous, overlap)
    requires |previous| > |overlap| ==> previous[|previous| - |overlap| - 1] == NEWLINE
    ensures Ends(file, overlap)
  {
    var a, b := |file| - |previous| - 1, |previous| - |overlap|;
    assert file[a..][b..] == file[a + b..];
    assert (previous + NL)[b..] == overlap + NL;
    if b > 0 {
      assert file[a..][b - 1] == file[a + b - 1] && (previous + NL)[b - 1] == previous[b - 1];
    }
  }

  lemma Glue(file: bytes, overlap: bytes, rest: bytes)
    requires Ends(file, overlap)
    ensures Ends(file + (rest + NL), overlap + NL + rest)
  {
    var at := |file| - |overlap| - 1;
    var whole := file + (rest + NL);
    assert whole[at..] == file[at..] + (rest + NL);
    assert overlap + NL + (rest + NL) == overlap + NL + rest + NL;
  }

  /** `sub` occurs at `k` and nowhere else. */
  ghost predicate Once(s: bytes, sub: bytes, k: nat) {
    OccursAt(s, sub, k) && forall j: nat :: OccursAt(s, sub, j) ==> j == k
  }

  lemma {:induction false} IndexOnly(s: bytes, sub: bytes, i: nat, k: nat)
    requires i <= k && Once(s, sub, k)
    ensures Index(s, sub, i) == k
    decreases k - i
  {
    if i < k {
      IndexOnly(s, sub, i + 1, k);
    }
  }

  lemma {:induction false} LastIndexOnly(s: bytes, sub: bytes, n: nat, k: nat)
    requires k < n && Once(s, sub, k)
    ensures LastIndex(s, sub, n) == k
  {
    if k < n - 1 {
      LastIndexOnly(s, sub, n - 1, k);
    }
  }

  lemma DeltaAt(previous: bytes, content: bytes, k: nat)
    requires previous != [] && Once(content, AppendAnchor(previous), k)
    ensures Delta(previous, content) == Continued(previous, content, k + |AppendAnchor(previous)|)
  {
    IndexOnly(content, AppendAnchor(previous), 0, k);
    LastIndexOnly(content, AppendAnchor(previous), |content| + 1, k);
  }

  /** The first `end` bytes of the content are whole last lines of `previous`, and
      end a line of the content. */
  predicate Overlaps(previous: bytes, content: bytes, end: nat) {
    && end <= |content| && HasSuffix(previous, content[..end])
    && (end < |previous| ==> previous[|previous| - end - 1] == NEWLINE)
    && (end < |content| ==> content[end] == NEWLINE)
  }

  /** The new lines are appended exactly if the end of the previous snapshot, its
      last 4096 bytes at most, occurs once in the new one, and what leads up to
      it is where the previous one ended. */
  lemma {:induction false} DeltaExactly(previous: bytes, content: bytes)
    ensures Delta(previous, content).Some? <==>
      previous != [] && exists k: nat ::
        Once(content, AppendAnchor(previous), k) && Overlaps(previous, content, k + |AppendAnchor(previous)|)
    ensures |AppendAnchor(previous)| == (if |previous| < 4096 then |previous| else 4096)
         && HasSuffix(previous, AppendAnchor(previous))
  {
    var anchor := AppendAnchor(previous);
    var at := LastIndex(content, anchor, |content| + 1);
    if previous != [] {
      if k: nat :| Once(content, anchor, k) {
        DeltaAt(previous, content, k);
      } else if at >= 0 && Index(content, anchor, 0) == at {
        forall j: nat | OccursAt(content, anchor, j) ensures j == at {
          IndexLowest(content, anchor, 0, j);
          LastIndexHighest(content, anchor, |content| + 1, j);
        }
        assert Once(content, anchor, at);
      }
    }
  }

  lemma {:induction false} IndexLowest(s: bytes, sub: bytes, i: nat, j: nat)
    requires i <= j && OccursAt(s, sub, j)
    ensures 0 <= Index(s, sub, i) <= j
    decreases j - i
  {
    if !OccursAt(s, sub, i) {
      IndexLowest(s, sub, i + 1, j);
    }
  }

  lemma {:induction false} LastIndexHighest(s: bytes, sub: bytes, n: nat, j: nat)
    requires j < n && OccursAt(s, sub, j)
    ensures LastIndex(s, sub, n) >= j
  {
    if !OccursAt(s, sub, n - 1) {
      LastIndexHighest(s, sub, n - 1, j);
    }
  }

  lemma GrowthContinues(previous: bytes, more: bytes)
    ensures Continued(previous, previous, |previous|) == Some([])
    ensures |previous| <= |previous + NL + more|
         && Continued(previous, previous + NL + more, |previous|) == Some(more + NL)
  {
    var content := previous + NL + more;
    assert content[..|previous|] == previous && content[|previous| + 1..] == more;
    assert previous[..|previous|] == previous;
  }

  /** A snapshot that only grew is appended, and one that did not change writes
      nothing, if the end of the previous one occurs once in it. */
  lemma GrowthIsAppended(previous: bytes, more: bytes)
    requires previous != []
    ensures Once(previous + NL + more, AppendAnchor(previous), |previous| - |AppendAnchor(previous)|) ==>
      Delta(previous, previous + NL + more) == Some(more + NL)
    ensures Once(previous, AppendAnchor(previous), |previous| - |AppendAnchor(previous)|) ==>
        Delta(previous, previous) == Some([])
  {
    var k := |previous| - |AppendAnchor(previous)|;
    GrowthContinues(previous, more);
    if Once(previous + NL + more, AppendAnchor(previous), k) {
      DeltaAt(previous, previous + NL + more, k);
    }
    if Once(previous, AppendAnchor(previous), k) {
      DeltaAt(previous, previous, k);
    }
  }

  /** A rewritten file ends with its content. */
  lemma RewriteEnds(content: bytes)
    ensures Ends(content + NL, content)
  {
  }

  /** The window that Save records for the end of a file. */
  function WindowAtEnd(file: bytes, content: bytes): Window {
    Window(|file| - |content| - 1, |content| + 1, Digest(content))
  }

  lemma EndSelected(file: bytes, content: bytes)
    requires Ends(file, content) && |content| <= MAX_BYTES
    ensures Selects(file, WindowAtEnd(file, content)) && WindowOk(WindowAtEnd(file, content))
  {
    var at := |file| - |content| - 1;
    assert file[at..at + |content| + 1] == file[at..];
  }

  // ------------------------------------------------------------- the invariant

  /** Everything that one Save works on. `newer` remembers, for the proof, the
      last content that replaced each file. */
  datatype View = View(
    files: map<string, bytes>,       // current/<source>.log
    disk: map<string, Meta>,         // the sources in current/boot.json
    memory: map<string, Meta>,       // Archive.record.Sources
    snapshots: map<string, bytes>,
    digests: map<string, Digest>,
    newer: map<string, bytes>)

  function At<T>(m: map<string, T>, s: string): Option<T> {
    if s in m then Some(m[s]) else None
  }

  /** What is read through the window is a complete snapshot. */
  predicate HeldIn(files: map<string, bytes>, newer: map<string, bytes>, s: string, w: Window) {
    s in files && s in newer && Held(files[s], w, newer[s])
  }

  predicate SelectsIn(files: map<string, bytes>, s: string, w: Window) {
    s in files && WindowOk(w) && Selects(files[s], w)
  }

  /** A remembered snapshot is where the file ends, at the start of a line. */
  predicate Remembered(v: View, s: string) {
    s in v.snapshots && v.snapshots[s] != [] ==> s in v.files && Ends(v.files[s], v.snapshots[s])
  }

  predicate SizeOk(files: map<string, bytes>, s: string) {
    s in files ==> |files[s]| <= FILE_LIMIT
  }

  ghost predicate SourceInv(v: View, s: string) {
    && Remembered(v, s) && SizeOk(v.files, s) && (s in v.files ==> s in v.newer)
    && (s in v.disk ==> HeldIn(v.files, v.newer, s, v.disk[s].window))
    && (s in v.memory ==> HeldIn(v.files, v.newer, s, v.memory[s].window))
    && (s in v.snapshots && v.snapshots[s] != [] && s in v.memory ==> SelectsIn(v.files, s, v.memory[s].window))
    && (s in v.digests ==> s in v.memory && v.memory[s].window.digest == v.digests[s]
                           && SelectsIn(v.files, s, v.memory[s].window))
  }

  ghost predicate Inv(v: View) {
    && (v.snapshots != map[] || v.digests != map[] ==> v.disk == v.memory)
    && forall s :: SourceInv(v, s)
  }

  // --------------------------------------------------------------- one source

  /** Nothing about source `s` changed. */
  predicate Same(v: View, v': View, s: string) {
    At(v'.files, s) == At(v.files, s) && At(v'.snapshots, s) == At(v.snapshots, s) && At(v'.newer, s) == At(v.newer, s)
  }

  /** The three things that can become of the file. */
  predicate Unchanged(v: View, v': View, s: string) {
    At(v'.files, s) == At(v.files, s) && At(v'.newer, s) == At(v.newer, s)
  }

  predicate Rewritten(v': View, s: string, content: bytes) {
    At(v'.files, s) == Some(content + NL) && At(v'.newer, s) == Some(content)
  }

  predicate Extended(v: View, v': View, s: string) {
    && s in v.snapshots && v.snapshots[s] != [] && s in v.files && s in v'.files
    && |v.files[s]| <= |v'.files[s]| && v'.files[s][..|v.files[s]|] == v.files[s]
    && At(v'.newer, s) == At(v.newer, s)
  }

  /** The file ends with the content, and `offset` is where it starts. */
  predicate WrittenAt(v: View, s: string, content: bytes, offset: int) {
    && At(v.snapshots, s) == Some(content) && s in v.files && Ends(v.files[s], content)
    && offset == |v.files[s]| - |content| - 1
  }

  /** What writeSource does, whether or not it succeeds. */
  ghost predicate Wrote(v: View, v': View, s: string, content: bytes, ok: bool, offset: int) {
    && (forall t :: t != s ==> Same(v, v', t))
    && v' == v.(files := v'.files, snapshots := v'.snapshots, newer := v'.newer)
    && (ok ==> WrittenAt(v', s, content, offset))
    && SizeOk(v'.files, s)
    && (Unchanged(v, v', s) || Rewritten(v', s, content) || Extended(v, v', s))
  }

  /** The windows committed before a write still lead to complete snapshots. */
  lemma WriteKeepsHeld(v: View, v': View, s: string, content: bytes, ok: bool, offset: int, w: Window)
    requires Wrote(v, v', s, content, ok, offset) && HeldIn(v.files, v.newer, s, w)
    requires s in v.snapshots && v.snapshots[s] != [] ==> SelectsIn(v.files, s, w)
    ensures HeldIn(v'.files, v'.newer, s, w)
  {
    if Extended(v, v', s) {
      var more := v'.files[s][|v.files[s]|..];
      AppendKeeps(v.files[s], more, w);
      assert v.files[s] + more == v'.files[s];
    }
  }

  /** Some first part of the text was appended. */
  predicate Torn(files: map<string, bytes>, files': map<string, bytes>, s: string, text: bytes) {
    && s in files && s in files' && files' == files[s := files'[s]]
    && |files[s]| <= |files'[s]| <= |files[s]| + |text| <= FILE_LIMIT
    && files'[s] == files[s] + text[..|files'[s]| - |files[s]|]
  }

  /** The file after a write that works: the lines that are new are appended, or
      where that cannot be the file is replaced. */
  function Brought(v: View, s: string, content: bytes): bytes {
    var delta := Delta(if s in v.snapshots then v.snapshots[s] else [], content);
    if delta.Some? && s in v.files && |v.files[s]| + |delta.value| <= FILE_LIMIT then v.files[s] + delta.value
    else content + NL
  }

  lemma AppendWrote(v: View, v': View, s: string, content: bytes, delta: bytes, offset: int)
    requires s in v.snapshots && v.snapshots[s] != [] && s in v.files && Ends(v.files[s] + delta, content)
    requires v' == v.(files := v'.files, snapshots := v'.snapshots)
    requires v'.files == v.files[s := v.files[s] + delta] && v'.snapshots == v.snapshots[s := content]
    requires |v'.files[s]| <= FILE_LIMIT && offset == |v'.files[s]| - (|content| + 1)
    ensures Wrote(v, v', s, content, true, offset)
  {
    ExtendedBy(v, v', s, content, delta);
  }

  lemma ExtendedBy(v: View, v': View, s: string, content: bytes, delta: bytes)
    requires s in v.snapshots && v.snapshots[s] != [] && s in v.files
    requires v' == v.(files := v.files[s := v.files[s] + delta], snapshots := v.snapshots[s := content])
    ensures Extended(v, v', s) && forall t :: t != s ==> Same(v, v', t)
  {
  }

  lemma TornWrote(v: View, v': View, s: string, content: bytes, delta: bytes)
    requires s in v.snapshots && v.snapshots[s] != [] && Remembered(v, s) && SizeOk(v.files, s)
    requires v' == v.(files := v'.files, snapshots := v'.snapshots) && v'.snapshots == v.snapshots - {s}
    requires v'.files == v.files || Torn(v.files, v'.files, s, delta)
    ensures Wrote(v, v', s, content, false, 0)
  {
    if v'.files != v.files {
      assert Extended(v, v', s);
    } else {
      assert Unchanged(v, v', s);
    }
  }

  lemma OthersSame(v: View, v': View, s: string, content: bytes, ok: bool)
    requires v'.snapshots == if ok then v.snapshots[s := content] else v.snapshots - {s}
    requires v'.files == v.files[s := content + NL] && v'.newer == v.newer[s := content]
    ensures forall t :: t != s ==> Same(v, v', t)
  {
  }

  lemma NewFile(v': View, s: string, content: bytes)
    requires At(v'.files, s) == Some(content + NL) && |content| <= MAX_BYTES
    ensures SizeOk(v'.files, s) && (At(v'.snapshots, s) == Some(content) ==> WrittenAt(v', s, content, 0))
  {
    RewriteEnds(content);
  }

  lemma RewriteWrote(v: View, v': View, s: string, content: bytes, ok: bool)
    requires |content| <= MAX_BYTES
    requires v' == v.(files := v'.files, snapshots := v'.snapshots, newer := v'.newer)
    requires v'.snapshots == if ok then v.snapshots[s := content] else v.snapshots - {s}
    requires v'.files == v.files[s := content + NL] && v'.newer == v.newer[s := content]
    ensures Wrote(v, v', s, content, ok, 0)
  {
    OthersSame(v, v', s, content, ok);
    NewFile(v', s, content);
    assert Rewritten(v', s, content);
  }

  lemma NotWrote(v: View, v': View, s: string, content: bytes)
    requires SizeOk(v.files, s) && v' == v.(snapshots := v.snapshots - {s})
    ensures Wrote(v, v', s, content, false, 0)
  {
    assert Unchanged(v, v', s);
  }

  /** What a window selects is lost only to the content of this very write. */
  lemma WriteSelects(v: View, v': View, s: string, content: bytes, ok: bool, offset: int, w: Window)
    requires Wrote(v, v', s, content, ok, offset) && SelectsIn(v.files, s, w)
    ensures SelectsIn(v'.files, s, w) || Rewritten(v', s, content)
  {
    if Extended(v, v', s) {
      var more := v'.files[s][|v.files[s]|..];
      AppendKeeps(v.files[s], more, w);
      assert v.files[s] + more == v'.files[s];
    }
  }

  // ------------------------------------------------------- a Save under way

  /** Source `s` was written by this Save, and its new entry selects it. */
  predicate Fresh(v: View, s: string, sources: map<string, Meta>, digests: map<string, Digest>) {
    && s in sources && s in v.files && s in v.newer && SizeOk(v.files, s)
    && var w := sources[s].window;
       && At(v.snapshots, s) == Some(w.digest.of) && At(digests, s) == Some(w.digest)
       && |w.digest.of| <= MAX_BYTES && Ends(v.files[s], w.digest.of) && w == WindowAtEnd(v.files[s], w.digest.of)
  }

  predicate NotYet(v0: View, v: View, s: string, sources: map<string, Meta>, digests: map<string, Digest>) {
    Same(v0, v, s) && At(sources, s) == At(v0.memory, s) && At(digests, s) == At(v0.digests, s)
  }

  /** The windows from before the Save still lead to complete snapshots. */
  predicate OldHeld(v0: View, v: View, s: string) {
    && SizeOk(v.files, s) && (s in v.files ==> s in v.newer)
    && (s in v0.disk ==> HeldIn(v.files, v.newer, s, v0.disk[s].window))
    && (s in v0.memory ==> HeldIn(v.files, v.newer, s, v0.memory[s].window))
  }

  /** The Save that began in `v0` has written the sources `done`. */
  ghost predicate Progress(v0: View, v: View, done: set<string>, sources: map<string, Meta>,
                           digests: map<string, Digest>, distinct: bool) {
    && v == v0.(files := v.files, snapshots := v.snapshots, newer := v.newer)
    && AllNotYet(v0, v, done, sources, digests) && AllFresh(v, done, sources, digests)
    && (distinct ==> AllHeld(v0, v))
  }

  ghost predicate AllNotYet(v0: View, v: View, done: set<string>, sources: map<string, Meta>,
                            digests: map<string, Digest>) {
    forall s :: s !in done ==> NotYet(v0, v, s, sources, digests)
  }

  predicate AllFresh(v: View, done: set<string>, sources: map<string, Meta>, digests: map<string, Digest>) {
    forall s :: s in done ==> Fresh(v, s, sources, digests)
  }

  ghost predicate AllHeld(v0: View, v: View) {
    forall s :: OldHeld(v0, v, s)
  }

  lemma ProgressRemembers(v0: View, v: View, done: set<string>, sources: map<string, Meta>,
                          digests: map<string, Digest>, distinct: bool, s: string)
    requires Inv(v0) && Progress(v0, v, done, sources, digests, distinct)
    ensures Remembered(v, s) && SizeOk(v.files, s) && (s in v.files ==> s in v.newer)
  {
    assert SourceInv(v0, s);
    if s in done {
      assert Fresh(v, s, sources, digests);
    } else {
      assert NotYet(v0, v, s, sources, digests);
    }
  }

  /** A write to a source that this Save has not written keeps the old windows,
      also when it fails. */
  lemma WriteHolds(v0: View, v: View, v': View, done: set<string>, sources: map<string, Meta>,
                   digests: map<string, Digest>,
                   s: string, content: bytes, ok: bool, offset: int)
    requires Inv(v0) && Progress(v0, v, done, sources, digests, true) && s !in done
    requires Wrote(v, v', s, content, ok, offset)
    ensures AllHeld(v0, v')
  {
    assert SourceInv(v0, s) && NotYet(v0, v, s, sources, digests);
    forall t ensures OldHeld(v0, v', t) {
      assert OldHeld(v0, v, t);
      if t == s {
        if s in v0.disk {
          WriteKeepsHeld(v, v', s, content, ok, offset, v0.disk[s].window);
        }
        if s in v0.memory {
          WriteKeepsHeld(v, v', s, content, ok, offset, v0.memory[s].window);
        }
      } else {
        assert Same(v, v', t);
      }
    }
  }

  lemma FreshNew(v: View, v': View, s: string, content: bytes, offset: int, sources: map<string, Meta>,
                 digests: map<string, Digest>)
    requires Wrote(v, v', s, content, true, offset) && (s in v.files ==> s in v.newer) && |content| <= MAX_BYTES
    requires s in sources && sources[s].window == Window(offset, |content| + 1, Digest(content))
    requires At(digests, s) == Some(Digest(content))
    ensures Fresh(v', s, sources, digests)
  {
  }

  lemma FreshKept(v: View, v': View, t: string, sources: map<string, Meta>, digests: map<string, Digest>,
                  sources': map<string, Meta>, digests': map<string, Digest>)
    requires Fresh(v, t, sources, digests) && Same(v, v', t)
    requires At(sources', t) == At(sources, t) && At(digests', t) == At(digests, t)
    ensures Fresh(v', t, sources', digests')
  {
  }

  /** One more source is written. */
  lemma ProgressStep(v0: View, v: View, v': View, done: set<string>, sources: map<string, Meta>,
                     digests: map<string, Digest>, distinct: bool,
                     s: string, content: bytes, offset: int, m: Meta)
    requires Inv(v0) && Progress(v0, v, done, sources, digests, distinct) && (distinct ==> s !in done)
    requires |content| <= MAX_BYTES && m.window == Window(offset, |content| + 1, Digest(content))
    requires Wrote(v, v', s, content, true, offset)
    ensures Progress(v0, v', done + {s}, sources[s := m], digests[s := Digest(content)], distinct)
  {
    if distinct {
      WriteHolds(v0, v, v', done, sources, digests, s, content, true, offset);
    }
    StillNotYet(v0, v, v', done, sources, digests, s, content, offset, m);
    ProgressRemembers(v0, v, done, sources, digests, distinct, s);
    NowFresh(v, v', done, sources, digests, s, content, offset, m);
  }

  lemma StillNotYet(v0: View, v: View, v': View, done: set<string>, sources: map<string, Meta>,
                    digests: map<string, Digest>,
                    s: string, content: bytes, offset: int, m: Meta)
    requires AllNotYet(v0, v, done, sources, digests)
    requires Wrote(v, v', s, content, true, offset)
    ensures AllNotYet(v0, v', done + {s}, sources[s := m], digests[s := Digest(content)])
  {
    forall t | t !in done + {s} ensures NotYet(v0, v', t, sources[s := m], digests[s := Digest(content)]) {
      assert NotYet(v0, v, t, sources, digests) && Same(v, v', t);
    }
  }

  lemma NowFresh(v: View, v': View, done: set<string>, sources: map<string, Meta>, digests: map<string, Digest>,
                 s: string, content: bytes, offset: int, m: Meta)
    requires AllFresh(v, done, sources, digests)
    requires Wrote(v, v', s, content, true, offset) && (s in v.files ==> s in v.newer)
    requires |content| <= MAX_BYTES && m.window == Window(offset, |content| + 1, Digest(content))
    ensures AllFresh(v', done + {s}, sources[s := m], digests[s := Digest(content)])
  {
    var sources', digests' := sources[s := m], digests[s := Digest(content)];
    forall t | t in done + {s} ensures Fresh(v', t, sources', digests') {
      if t == s {
        FreshNew(v, v', s, content, offset, sources', digests');
      } else {
        FreshKept(v, v', t, sources, digests, sources', digests');
      }
    }
  }

  lemma FreshHeld(v: View, s: string, sources: map<string, Meta>, digests: map<string, Digest>)
    requires Fresh(v, s, sources, digests)
    ensures SelectsIn(v.files, s, sources[s].window) && HeldIn(v.files, v.newer, s, sources[s].window)
  {
    EndSelected(v.files[s], sources[s].window.digest.of);
  }

  /** A committed Save. */
  lemma CommitInv(v0: View, v: View, done: set<string>, sources: map<string, Meta>, digests: map<string, Digest>,
                  distinct: bool)
    requires Inv(v0) && Progress(v0, v, done, sources, digests, distinct)
    ensures Inv(v.(disk := sources, memory := sources, digests := digests))
  {
    var v' := v.(disk := sources, memory := sources, digests := digests);
    forall s ensures SourceInv(v', s) {
      if s in done {
        FreshHeld(v, s, sources, digests);
      } else {
        assert NotYet(v0, v, s, sources, digests) && SourceInv(v0, s);
      }
    }
  }

  /** A Save that failed, with the old or the new boot.json. */
  lemma FailInv(v0: View, v: View, disk: map<string, Meta>)
    requires AllHeld(v0, v)
    requires v.memory == v0.memory
    requires disk == v0.disk || forall s :: s in disk ==> HeldIn(v.files, v.newer, s, disk[s].window)
    ensures Inv(v.(disk := disk, snapshots := map[], digests := map[]))
  {
    var v' := v.(disk := disk, snapshots := map[], digests := map[]);
    forall s ensures SourceInv(v', s) {
      assert OldHeld(v0, v, s);
    }
  }

  /** The new record, too, leads to complete snapshots. */
  lemma NewHeld(v0: View, v: View, done: set<string>, sources: map<string, Meta>, digests: map<string, Digest>)
    requires Inv(v0) && Progress(v0, v, done, sources, digests, true)
    ensures forall s :: s in sources ==> HeldIn(v.files, v.newer, s, sources[s].window)
  {
    forall s | s in sources ensures HeldIn(v.files, v.newer, s, sources[s].window) {
      if s in done {
        FreshHeld(v, s, sources, digests);
      } else {
        assert NotYet(v0, v, s, sources, digests) && OldHeld(v0, v, s);
      }
    }
  }

  /** The snapshot's content is committed: with its own flags, or, where the
      digest had not changed, with those of the entry that was there. */
  predicate Recorded(v0: View, sources: map<string, Meta>, digests: map<string, Digest>, s: Snapshot) {
    && s.source in sources && At(digests, s.source) == Some(Digest(Encode(s.content)))
    && sources[s.source].window.digest == Digest(Encode(s.content))
    && if At(v0.digests, s.source) == Some(Digest(Encode(s.content)))
        then At(v0.memory, s.source) == Some(sources[s.source])
       else sources[s.source] == MetaOf(s, sources[s.source].window.offset)
  }

  /** A Save accepts the snapshot. */
  predicate Acceptable(s: Snapshot) {
    s.state.Unavailable? || (|Encode(s.content)| <= MAX_BYTES && s.source in SOURCES && s.boot == "current")
  }

  predicate AllAcceptable(input: seq<Snapshot>, n: nat)
    requires n <= |input|
  {
    forall j :: 0 <= j < n ==> Acceptable(input[j])
  }

  /** A Save writes the snapshot: its content is not that of the last one. */
  predicate Writes(digests: map<string, Digest>, s: Snapshot) {
    !s.state.Unavailable? && At(digests, s.source) != Some(Digest(Encode(s.content)))
  }

  /** The last of the first `n` snapshots that a Save writes, or -1. */
  function LastWritten(digests: map<string, Digest>, input: seq<Snapshot>, n: nat): (k: int)
    requires n <= |input|
    ensures -1 <= k < n
  {
    if n == 0 then -1 else if Writes(digests, input[n - 1]) then n - 1 else LastWritten(digests, input, n - 1)
  }

  /** When the archive was last saved, as the record says. */
  function SavedAt(digests: map<string, Digest>, input: seq<Snapshot>, n: nat, before: int): int
    requires n <= |input|
  {
    var k := LastWritten(digests, input, n);
    if k < 0 then before else input[k].collectedAt
  }

  /** The last one that is written, as its name says. */
  lemma {:induction false} LastWrittenIs(digests: map<string, Digest>, input: seq<Snapshot>, n: nat)
    requires n <= |input|
    ensures var k := LastWritten(digests, input, n);
      && (k >= 0 ==> Writes(digests, input[k])) && forall j :: k < j < n ==> !Writes(digests, input[j])
  {
    if n > 0 {
      LastWrittenIs(digests, input, n - 1);
    }
  }

  predicate AllRecorded(v0: View, sources: map<string, Meta>, digests: map<string, Digest>, input: seq<Snapshot>,
                        n: nat)
    requires n <= |input|
  {
    forall j :: 0 <= j < n && !input[j].state.Unavailable? ==> Recorded(v0, sources, digests, input[j])
  }

  lemma ProgressStart(v: View)
    requires Inv(v)
    ensures Progress(v, v, {}, v.memory, v.digests, true)
  {
    forall s ensures OldHeld(v, v, s) {
      assert SourceInv(v, s);
    }
  }

  // ----------------------------------------------------------------- the store

  /** A boot directory; without its boot.json it is not readable. */
  datatype Slot = Slot(record: Option<Record>, files: map<string, bytes>)

  ghost predicate AllSized(files: map<string, bytes>, newer: map<string, bytes>) {
    forall s :: SizeOk(files, s) && (s in files ==> s in newer)
  }

  ghost predicate RecordOk(files: map<string, bytes>, newer: map<string, bytes>, sources: map<string, Meta>) {
    forall s :: s in sources ==> HeldIn(files, newer, s, sources[s].window) && SizeOk(files, s)
  }

  ghost predicate SlotOk(slot: Option<Slot>, newer: map<string, bytes>) {
    slot.Some? && slot.value.record.Some? ==> RecordOk(slot.value.files, newer, slot.value.record.value.sources)
  }

  /** Every available snapshot of a call names another source. */
  predicate Distinct(snapshots: seq<Snapshot>) {
    forall i, j :: 0 <= i < j < |snapshots| && !snapshots[i].state.Unavailable? && !snapshots[j].state.Unavailable?
      ==> snapshots[i].source != snapshots[j].source
  }

  function MetaOf(s: Snapshot, offset: int): Meta {
    Meta(s.lines, s.truncated, s.collectedAt, Window(offset, |Encode(s.content)| + 1, Digest(Encode(s.content))))
  }

  /** The sources that the first `n` snapshots name. */
  function Names(input: seq<Snapshot>, n: nat): set<string>
    requires n <= |input|
  {
    if n == 0 then {}
    else Names(input, n - 1) + (if input[n - 1].state.Unavailable? then {} else {input[n - 1].source})
  }

  lemma {:induction false} DistinctNames(input: seq<Snapshot>, n: nat, i: nat)
    requires Distinct(input) && n <= i < |input| && !input[i].state.Unavailable?
    ensures input[i].source !in Names(input, n)
    decreases n
  {
    if n > 0 {
      DistinctNames(input, n - 1, i);
    }
  }

  /** The content is that of a snapshot of source `s` in the input. */
  ghost predicate Given(input: seq<Snapshot>, s: string, content: bytes) {
    exists j :: 0 <= j < |input| && input[j].source == s && Encode(input[j].content) == content
  }

  /** Every file that was replaced was replaced by a snapshot of the input. */
  ghost predicate NewerGiven(before: map<string, bytes>, after: map<string, bytes>, input: seq<Snapshot>) {
    forall s :: At(after, s) == At(before, s) || (s in after && Given(input, s, after[s]))
  }

  lemma WroteGiven(before: map<string, bytes>, v: View, v': View, s: string, content: bytes, ok: bool, offset: int,
                   input: seq<Snapshot>)
    requires NewerGiven(before, v.newer, input) && Wrote(v, v', s, content, ok, offset) && Given(input, s, content)
    ensures NewerGiven(before, v'.newer, input)
  {
    forall t ensures At(v'.newer, t) == At(before, t) || (t in v'.newer && Given(input, t, v'.newer[t])) {
      if t != s {
        assert Same(v, v', t);
      }
    }
  }

  /** The loop of Save after `n` snapshots. */
  ghost predicate Loop(v0: View, v: View, done: set<string>, sources: map<string, Meta>, digests: map<string, Digest>,
                       input: seq<Snapshot>, n: nat)
    requires n <= |input|
  {
    && Progress(v0, v, done, sources, digests, Distinct(input))
    && done <= Names(input, n)
    && (Distinct(input) ==> AllRecorded(v0, sources, digests, input, n))
    && NewerGiven(v0.newer, v.newer, input)
    && DoneGiven(done, sources, input) && (Distinct(input) ==> AllStill(v0, v, input))
  }

  /** The loop stopped on an error. */
  ghost predicate Broken(v0: View, v: View, input: seq<Snapshot>) {
    (Distinct(input) ==> AllHeld(v0, v) && AllStill(v0, v, input)) && NewerGiven(v0.newer, v.newer, input)
  }

  ghost predicate DoneGiven(done: set<string>, sources: map<string, Meta>, input: seq<Snapshot>) {
    forall s :: s in done && s in sources ==> Given(input, s, sources[s].window.digest.of)
  }

  lemma LoopStarts(v0: View, input: seq<Snapshot>)
    requires Inv(v0)
    ensures Loop(v0, v0, {}, v0.memory, v0.digests, input, 0)
  {
    ProgressStart(v0);
  }

  /** A Save that writes nothing changes nothing. */
  lemma NothingDone(v0: View, v: View, sources: map<string, Meta>, digests: map<string, Digest>, input: seq<Snapshot>)
    requires Loop(v0, v, {}, sources, digests, input, |input|)
    ensures v == v0 && sources == v0.memory && digests == v0.digests
  {
    forall s ensures At(v.files, s) == At(v0.files, s) && At(v.snapshots, s) == At(v0.snapshots, s)
      && At(v.newer, s) == At(v0.newer, s) && At(sources, s) == At(v0.memory, s) && At(digests, s) == At(v0.digests, s)
    {
      assert NotYet(v0, v, s, sources, digests);
    }
    SameMap(v.files, v0.files);
    SameMap(v.snapshots, v0.snapshots);
    SameMap(v.newer, v0.newer);
    SameMap(sources, v0.memory);
    SameMap(digests, v0.digests);
  }

  lemma SameMap<T>(a: map<string, T>, b: map<string, T>)
    requires forall s :: At(a, s) == At(b, s)
    ensures a == b
  {
    forall s ensures (s in a <==> s in b) && (s in a ==> a[s] == b[s]) {
      assert At(a, s) == At(b, s);
    }
  }

  lemma LoopSkips(v0: View, v: View, done: set<string>, sources: map<string, Meta>, digests: map<string, Digest>,
                  input: seq<Snapshot>, n: nat)
    requires Inv(v0) && n < |input| && Loop(v0, v, done, sources, digests, input, n)
    requires input[n].state.Unavailable? || At(v0.digests, input[n].source) == Some(Digest(Encode(input[n].content)))
    ensures Loop(v0, v, done, sources, digests, input, n + 1)
  {
    var s := input[n].source;
    if Distinct(input) && !input[n].state.Unavailable? {
      DistinctNames(input, n, n);
      assert SourceInv(v0, s) && NotYet(v0, v, s, sources, digests);
    }
  }

  lemma LoopWrites(v0: View, v: View, v': View, done: set<string>, sources: map<string, Meta>,
                   digests: map<string, Digest>,
                   input: seq<Snapshot>, n: nat, content: bytes, offset: int)
    requires Inv(v0) && n < |input| && Loop(v0, v, done, sources, digests, input, n)
    requires !input[n].state.Unavailable? && content == Encode(input[n].content) && |content| <= MAX_BYTES
    requires At(v0.digests, input[n].source) != Some(Digest(content))
    requires Wrote(v, v', input[n].source, content, true, offset)
    ensures var s := input[n].source;
      Loop(v0, v', done + {s}, sources[s := MetaOf(input[n], offset)], digests[s := Digest(content)], input, n + 1)
  {
    var s := input[n].source;
    if Distinct(input) {
      DistinctNames(input, n, n);
    }
    ProgressStep(v0, v, v', done, sources, digests, Distinct(input), s, content, offset, MetaOf(input[n], offset));
    assert Given(input, s, content);
    WroteGiven(v0.newer, v, v', s, content, true, offset, input);
    assert DoneGiven(done + {s}, sources[s := MetaOf(input[n], offset)], input);
    if Distinct(input) {
      RecordedMore(v0, sources, digests, input, n, offset);
      assert NotYet(v0, v, s, sources, digests);
      AllStillWrites(v0, v, v', s, content, true, offset, input);
    }
  }

  /** Every entry is an older one, or that of a snapshot of the input, which it
      selects. */
  ghost predicate EntriesGiven(v0: View, v: View, sources: map<string, Meta>, input: seq<Snapshot>) {
    forall s :: s in sources ==>
      || At(v0.disk, s) == Some(sources[s]) || At(v0.memory, s) == Some(sources[s])
      || (Given(input, s, sources[s].window.digest.of) && SelectsIn(v.files, s, sources[s].window))
  }

  lemma LoopEntries(v0: View, v: View, done: set<string>, sources: map<string, Meta>, digests: map<string, Digest>,
                    input: seq<Snapshot>)
    requires Loop(v0, v, done, sources, digests, input, |input|)
    ensures EntriesGiven(v0, v, sources, input)
  {
    forall s | s in sources
      ensures At(v0.memory, s) == Some(sources[s])
          || (Given(input, s, sources[s].window.digest.of) && SelectsIn(v.files, s, sources[s].window))
    {
      if s !in done {
        assert NotYet(v0, v, s, sources, digests);
      } else {
        FreshHeld(v, s, sources, digests);
      }
    }
  }

  lemma RecordedMore(v0: View, sources: map<string, Meta>, digests: map<string, Digest>, input: seq<Snapshot>, n: nat,
                     offset: int)
    requires n < |input| && Distinct(input) && AllRecorded(v0, sources, digests, input, n)
        && !input[n].state.Unavailable?
    requires At(v0.digests, input[n].source) != Some(Digest(Encode(input[n].content)))
    ensures var s := input[n].source;
      AllRecorded(v0, sources[s := MetaOf(input[n], offset)], digests[s := Digest(Encode(input[n].content))], input,
                  n + 1)
  {
    var s := input[n].source;
    var sources', digests' := sources[s := MetaOf(input[n], offset)], digests[s := Digest(Encode(input[n].content))];
    forall j | 0 <= j < n + 1 && !input[j].state.Unavailable? ensures Recorded(v0, sources', digests', input[j]) {
      if j < n {
        assert Recorded(v0, sources, digests, input[j]) && input[j].source != s;
      }
    }
  }

  lemma DiskFollows(v: View)
    requires Inv(v)
    ensures RecordOk(v.files, v.newer, v.disk) && AllSized(v.files, v.newer)
  {
    forall s ensures SizeOk(v.files, s) && (s in v.files ==> s in v.newer)
        && (s in v.disk ==> HeldIn(v.files, v.newer, s, v.disk[s].window)) {
      assert SourceInv(v, s);
    }
  }

  /** What a Save that came to `ok` did to the two records and the files. */
  ghost predicate SaveEnd(v0: View, v: View, input: seq<Snapshot>, ok: bool) {
    && NewerGiven(v0.newer, v.newer, input) && EntriesGiven(v0, v, v.disk, input)
    && (v.memory == v0.memory || v.memory == v.disk) && v0.memory.Keys <= v.memory.Keys
    && (v.disk == v0.disk || v0.memory.Keys <= v.disk.Keys)
    && (Distinct(input) ==> AllStill(v0, v, input) && (ok ==> AllRecorded(v0, v.disk, v.digests, input, |input|)))
    && (!ok ==> v.memory == v0.memory && v.snapshots == map[] && v.digests == map[])
  }

  lemma {:induction false} LoopEnds(v0: View, v: View, v': View, done: set<string>, sources: map<string, Meta>,
                                    digests: map<string, Digest>, input: seq<Snapshot>, ok: bool)
    requires Loop(v0, v, done, sources, digests, input, |input|)
    requires v' == v.(disk := v'.disk, memory := v'.memory, snapshots := v'.snapshots, digests := v'.digests)
    requires if ok then v'.disk == v'.memory == sources && v'.digests == digests
             else v'.memory == v.memory && (v'.disk == v.disk || v'.disk == sources) && v'.snapshots == map[]
                  && v'.digests == map[]
    ensures SaveEnd(v0, v', input, ok)
  {
    LoopEntries(v0, v, done, sources, digests, input);
    LoopKeys(v0, v, done, sources, digests, input);
  }

  lemma {:induction false} LoopKeys(v0: View, v: View, done: set<string>, sources: map<string, Meta>,
                                    digests: map<string, Digest>,
                                    input: seq<Snapshot>)
    requires Loop(v0, v, done, sources, digests, input, |input|)
    ensures v0.memory.Keys <= sources.Keys
  {
    forall s | s in v0.memory ensures s in sources {
      if s !in done {
        assert NotYet(v0, v, s, sources, digests);
      } else {
        assert Fresh(v, s, sources, digests);
      }
    }
  }

  lemma {:induction false} NothingEnds(v: View, input: seq<Snapshot>, sources: map<string, Meta>,
                                       digests: map<string, Digest>)
    requires Inv(v) && Loop(v, v, {}, sources, digests, input, |input|) && sources == v.memory && digests == v.digests
    ensures SaveEnd(v, v, input, true)
  {
    if Distinct(input) {
      forall j | 0 <= j < |input| && !input[j].state.Unavailable? ensures Recorded(v, v.disk, v.digests, input[j]) {
        assert Recorded(v, v.memory, v.digests, input[j]);
        assert input[j].source in v.digests;
      }
    }
  }

  /** The invariant, and what it says of the disk alone. */
  ghost predicate Usable(v: View) {
    Inv(v) && RecordOk(v.files, v.newer, v.disk) && AllSized(v.files, v.newer)
  }

  /** A Save that fails in its loop. */
  lemma {:induction false} BrokenEnds(v0: View, v: View, v': View, input: seq<Snapshot>)
    requires Inv(v0) && Broken(v0, v, input) && v.disk == v0.disk && v.memory == v0.memory
    requires v' == v.(snapshots := map[], digests := map[])
    ensures SaveEnd(v0, v', input, false) && (Distinct(input) ==> Usable(v'))
  {
    if Distinct(input) {
      FailInv(v0, v, v0.disk);
      DiskFollows(v');
    }
  }

  /** A Save that gets to its end: committed, or failed with the old or the new
      record on disk. */
  lemma {:induction false} FinishEnds(v0: View, v: View, v': View, done: set<string>, sources: map<string, Meta>,
                                      digests: map<string, Digest>, input: seq<Snapshot>, ok: bool)
    requires Inv(v0) && Loop(v0, v, done, sources, digests, input, |input|)
    requires v' == v.(disk := v'.disk, memory := v'.memory, snapshots := v'.snapshots, digests := v'.digests)
    requires if ok then v'.disk == v'.memory == sources && v'.digests == digests && v'.snapshots == v.snapshots
             else v'.memory == v.memory && (v'.disk == v.disk || v'.disk == sources) && v'.snapshots == map[]
                  && v'.digests == map[]
    ensures SaveEnd(v0, v', input, ok) && (ok || Distinct(input) ==> Usable(v'))
  {
    LoopEnds(v0, v, v', done, sources, digests, input, ok);
    if ok {
      CommitInv(v0, v, done, sources, digests, Distinct(input));
      DiskFollows(v');
    } else if Distinct(input) {
      SaveFails(v0, v, v', done, sources, digests, input);
    }
  }

  /** A Save that fails at its end, with the old or the new record on disk. */
  lemma {:induction false} SaveFails(v0: View, v: View, v': View, done: set<string>, sources: map<string, Meta>,
                                     digests: map<string, Digest>, input: seq<Snapshot>)
    requires Distinct(input) && Inv(v0) && Loop(v0, v, done, sources, digests, input, |input|)
    requires v' == v.(disk := v'.disk, snapshots := map[], digests := map[])
        && (v'.disk == v.disk || v'.disk == sources)
    ensures Usable(v')
  {
    if v'.disk != v0.disk {
      NewHeld(v0, v, done, sources, digests);
    }
    FailInv(v0, v, v'.disk);
    DiskFollows(v');
  }

  /** Opened again, nothing is remembered. */
  lemma OpenInv(v: View)
    requires v.snapshots == map[] && v.digests == map[] && v.disk == v.memory && RecordOk(v.files, v.newer, v.disk)
    requires AllSized(v.files, v.newer)
    ensures Inv(v)
  {
    forall s ensures SourceInv(v, s) {
      assert SizeOk(v.files, s);
    }
  }

  /** What window `w` selected before the Save it still selects, or the file is a
      complete snapshot that was given to this Save. */
  ghost predicate StillOrNew(v0: View, v: View, s: string, w: Window, input: seq<Snapshot>) {
    SelectsIn(v0.files, s, w) ==>
      || SelectsIn(v.files, s, w)
      || (s in v.newer && At(v.files, s) == Some(v.newer[s] + NL) && Given(input, s, v.newer[s]))
  }

  /** This holds of all windows that were committed before. */
  ghost predicate AllStill(v0: View, v: View, input: seq<Snapshot>) {
    && (forall s :: s in v0.disk ==> StillOrNew(v0, v, s, v0.disk[s].window, input))
    && (forall s :: s in v0.memory ==> StillOrNew(v0, v, s, v0.memory[s].window, input))
  }

  lemma StillWrites(v0: View, v: View, v': View, s: string, t: string, content: bytes, ok: bool, offset: int, w: Window,
                    input: seq<Snapshot>)
    requires StillOrNew(v0, v, t, w, input) && Wrote(v, v', s, content, ok, offset) && Given(input, s, content)
    requires t == s ==> Same(v0, v, s)
    ensures StillOrNew(v0, v', t, w, input)
  {
    if t != s {
      assert Same(v, v', t);
    } else if SelectsIn(v0.files, s, w) {
      WriteSelects(v, v', s, content, ok, offset, w);
    }
  }

  lemma AllStillWrites(v0: View, v: View, v': View, s: string, content: bytes, ok: bool, offset: int,
                       input: seq<Snapshot>)
    requires AllStill(v0, v, input) && Wrote(v, v', s, content, ok, offset) && Given(input, s, content)
        && Same(v0, v, s)
    ensures AllStill(v0, v', input)
  {
    forall t | t in v0.disk ensures StillOrNew(v0, v', t, v0.disk[t].window, input) {
      StillWrites(v0, v, v', s, t, content, ok, offset, v0.disk[t].window, input);
    }
    forall t | t in v0.memory ensures StillOrNew(v0, v', t, v0.memory[t].window, input) {
      StillWrites(v0, v, v', s, t, content, ok, offset, v0.memory[t].window, input);
    }
  }

  // ---------------------------------------------------------------- the rotation

  /** The directories on the disk, "current", "previous" and "older". */
  datatype Shelf = Shelf(current: Slot, previous: Option<Slot>, older: Option<Slot>)

  /** After the first `moves` moves of a rotation: "older" is removed, "previous"
      renamed to it, "current" renamed to "previous". */
  function Rotated(d: Shelf, moves: nat): Shelf {
    if moves == 0 then d
    else if moves == 1 then d.(older := None)
    else if moves == 2 then Shelf(d.current, None, d.previous)
    else Shelf(Slot(None, map[]), Some(d.current), d.previous)
  }

  /** A rotation ended after some of its moves; in an interrupted removal
      boot.json went first. */
  predicate RotationEnds(d: Shelf, d': Shelf, moves: nat) {
    && moves <= 3
    && if moves == 0 then d' == d.(older := d'.older)
        && (d'.older == d.older || (d'.older.Some? && d'.older.value.record == None))
       else d' == Rotated(d, moves)
  }

  /** A rotation that is interrupted any number of times and then done as a whole
      always puts the last boot into "previous". It keeps the boot before it in
      "older" if and only if none of the attempts ended between the two renames. */
  lemma {:induction false} RotationExactly(disks: seq<Shelf>, moves: seq<nat>, n: nat)
    requires |disks| == n + 2 && |moves| == n + 1 && moves[n] == 3
    requires forall i :: 0 <= i <= n ==> RotationEnds(disks[i], disks[i + 1], moves[i]) && (i < n ==> moves[i] < 3)
    ensures disks[n + 1].previous == Some(disks[0].current)
    ensures disks[n + 1].older == if forall i :: 0 <= i < n ==> moves[i] != 2 then disks[0].previous else None
  {
    assert RotationEnds(disks[0], disks[1], moves[0]);
    if n > 0 {
      var rest := moves[1..];
      forall i | 0 <= i <= n - 1
        ensures RotationEnds(disks[1..][i], disks[1..][i + 1], rest[i]) && (i < n - 1 ==> rest[i] < 3) {
        assert RotationEnds(disks[i + 1], disks[i + 1 + 1], moves[i + 1]);
      }
      RotationExactly(disks[1..], rest, n - 1);
      if forall i :: 0 <= i < n ==> moves[i] != 2 {
        assert moves[0] != 2 && forall i :: 0 <= i < n - 1 ==> rest[i] != 2;
      } else if moves[0] != 2 {
        var i :| 0 <= i < n && moves[i] == 2;
        assert rest[i - 1] == 2;
      }
    }
  }

  /** Such an interruption happens: the boot before the last one is lost although
      both rotations work as they should. */
  method BootLost(a: Archive)
    requires a.DiskOk() && a.saved.Some?
    modifies a
    ensures a.previous == Some(Slot(old(a.saved), old(a.files))) && a.older == None
  {
    var moves := a.Rotate(|SOURCES| + 2, 2);
    moves := a.Rotate(|SOURCES| + 2, 3);
  }

  class Archive {
    // on disk: the directory "current" and the two older ones
    var files: map<string, bytes>
    var saved: Option<Record>
    var previous: Option<Slot>
    var older: Option<Slot>
    // in memory
    var record: Record
    var digests: map<string, Digest>
    var snapshots: map<string, bytes>
    var failed: bool
    // for the proof
    ghost var newer: map<string, bytes>
    ghost var previousNewer: map<string, bytes>
    ghost var olderNewer: map<string, bytes>

    /** An empty disk. */
    constructor ()
      ensures saved == None && files == map[] && newer == map[] && previous == None && older == None && DiskOk()
    {
      files, newer, previousNewer, olderNewer, saved, previous, older := map[], map[], map[], map[], None, None, None;
      record, digests, snapshots, failed := Record("", 0, 0, map[]), map[], map[], false;
    }

    ghost function Now(): View
      reads this
      requires saved.Some?
    {
      View(files, saved.value.sources, record.sources, snapshots, digests, newer)
    }

    ghost function Disk(): Shelf
      reads this
    {
      Shelf(Slot(saved, files), previous, older)
    }

    /** What every crash leaves on the disk. */
    ghost predicate DiskOk()
      reads this
    {
      && (saved.Some? ==> RecordOk(files, newer, saved.value.sources))
      && AllSized(files, newer)
      && SlotOk(previous, previousNewer) && SlotOk(older, olderNewer)
    }

    /** An archive that was opened. */
    ghost predicate Valid()
      reads this
    {
      DiskOk() && saved.Some? && record.bootId == saved.value.bootId && Inv(Now())
    }

    /** appendFile: any prefix of the text may reach the file when it fails. With
        `works` no operation on the disk fails. */
    method AppendFile(s: string, text: bytes, works: bool) returns (size: nat, appended: bool, err: bool)
      modifies this`files
      ensures works && s in old(files) ==> !err && appended == (|old(files)[s]| + |text| <= FILE_LIMIT)
      ensures appended ==> !err && s in old(files) && files == old(files)[s := old(files)[s] + text]
                           && size == |files[s]| <= FILE_LIMIT
      ensures !appended && !err ==> files == old(files) && s in files && |files[s]| + |text| > FILE_LIMIT
      ensures files == old(files) || Torn(old(files), files, s, text)
    {
      var broken: bool := *;
      if s !in files || (broken && !works) {
        return 0, false, true;
      }
      size := |files[s]| + |text|;
      if size > FILE_LIMIT {
        var closed: bool := *;
        return 0, false, !closed && !works;
      }
      var written :| 0 <= written <= |text|;
      if written < |text| && !works {
        files := files[s := files[s] + text[..written]];
        return size, false, true;
      }
      assert text[..|text|] == text;
      files := files[s := files[s] + text];
      var synced: bool := *;
      return size, synced || works, !synced && !works;
    }

    /** atomicWrite: the file is replaced or it is not; even a replaced file
        may be reported as failed. */
    method AtomicWrite(s: string, data: bytes, works: bool) returns (ok: bool)
      modifies this`files
      ensures works ==> ok
      ensures files == old(files)[s := data] || (files == old(files) && !ok)
    {
      var renamed: bool, synced: bool := *, *;
      if renamed || works {
        files := files[s := data];
      }
      return (renamed && synced) || works;
    }

    /** writeSource: brings the file up to date with the content. */
    method WriteSource(s: string, content: bytes, works: bool) returns (ok: bool, offset: int)
      requires saved.Some? && Remembered(Now(), s) && SizeOk(files, s) && |content| <= MAX_BYTES
      modifies this`files, this`snapshots, this`newer
      ensures works ==> ok
      ensures ok ==> files == old(files)[s := Brought(old(Now()), s, content)]
      ensures Wrote(old(Now()), Now(), s, content, ok, offset)
    {
      var done := false;
      var delta := Delta(if s in snapshots then snapshots[s] else [], content);
      if delta.Some? {
        ghost var v := Now();
        done, ok, offset := AppendMore(s, content, delta.value, works);
        if ok {
          AppendRefines(v.files[s], v.snapshots[s], content);
          AppendWrote(v, Now(), s, content, delta.value, offset);
        } else if done {
          TornWrote(v, Now(), s, content, delta.value);
        }
      }
      if !done {
        ok := Rewrite(s, content, works);
        offset := 0;
      }
    }

    /** The part of writeSource that appends; not `done` when the file is full. */
    method AppendMore(s: string, content: bytes, delta: bytes, works: bool) returns (done: bool, ok: bool, offset: int)
      requires s in files
      modifies this`files, this`snapshots
      ensures (works && done ==> ok) && (ok ==> done)
      ensures ok ==> |old(files)[s]| + |delta| <= FILE_LIMIT && files == old(files)[s := old(files)[s] + delta]
      ensures ok ==> snapshots == old(snapshots)[s := content] && offset == |old(files)[s]| + |delta| - (|content| + 1)
      ensures done && !ok ==> snapshots == old(snapshots) - {s} && offset == 0
                              && (files == old(files) || Torn(old(files), files, s, delta))
      ensures !done ==> files == old(files) && snapshots == old(snapshots) && |files[s]| + |delta| > FILE_LIMIT
    {
      done, ok, offset := false, false, 0;
      var size, appended, err := AppendFile(s, delta, works);
      if err {
        snapshots := snapshots - {s};
        done := true;
      } else if appended {
        snapshots := snapshots[s := content];
        done, ok, offset := true, true, size - (|content| + 1);
      }
    }

    /** The part of writeSource that replaces the file. */
    method Rewrite(s: string, content: bytes, works: bool) returns (ok: bool)
      requires saved.Some? && SizeOk(files, s) && |content| <= MAX_BYTES
      modifies this`files, this`snapshots, this`newer
      ensures works ==> ok
      ensures ok ==> files == old(files)[s := content + NL]
      ensures Wrote(old(Now()), Now(), s, content, ok, 0)
    {
      ghost var v := Now();
      snapshots := snapshots - {s};
      ok := AtomicWrite(s, content + NL, works);
      if files != old(files) || ok {
        newer := newer[s := content];
      }
      if ok {
        snapshots := snapshots[s := content];
      }
      if files == old(files) && !ok {
        NotWrote(v, Now(), s, content);
      } else {
        RewriteWrote(v, Now(), s, content, ok);
      }
    }

    /** One turn of the loop of Save. */
    method SaveOne(input: seq<Snapshot>, i: nat, ghost v0: View, sources: map<string, Meta>,
                   digests': map<string, Digest>, ghost done: set<string>, works: bool)
      returns (ok: bool, wrote: bool, sources': map<string, Meta>, digests'': map<string, Digest>,
               ghost done': set<string>)
      requires saved.Some? && Inv(v0) && i < |input| && v0.digests == digests
          && Loop(v0, Now(), done, sources, digests', input, i)
      modifies this`files, this`snapshots, this`newer
      ensures if ok then Loop(v0, Now(), done', sources', digests'', input, i + 1) else Broken(v0, Now(), input)
      ensures ok && !wrote ==> done' == done && sources' == sources && files == old(files)
      ensures ok ==> Acceptable(input[i]) && wrote == Writes(digests, input[i])
      ensures works && Acceptable(input[i]) ==> ok
    {
      ok, wrote, sources', digests'', done' := true, false, sources, digests', done;
      var snapshot := input[i];
      if snapshot.state.Unavailable? {
        LoopSkips(v0, Now(), done, sources, digests', input, i);
        return;
      }
      var s, content := snapshot.source, Encode(snapshot.content);
      if |content| > MAX_BYTES || s !in SOURCES || snapshot.boot != "current" {
        ok := false;
        return;
      }
      var digest := Digest(content);
      if s in digests && digests[s] == digest {
        LoopSkips(v0, Now(), done, sources, digests', input, i);
        return;
      }
      ghost var v := Now();
      ProgressRemembers(v0, v, done, sources, digests', Distinct(input), s);
      var offset;
      ok, offset := WriteSource(s, content, works);
      if ok {
        LoopWrites(v0, v, Now(), done, sources, digests', input, i, content, offset);
        digests'', sources', done' := digests'[s := digest], sources[s := MetaOf(snapshot, offset)], done + {s};
        wrote := true;
      } else {
        WroteGiven(v0.newer, v, Now(), s, content, ok, offset, input);
        if Distinct(input) {
          DistinctNames(input, i, i);
          WriteHolds(v0, v, Now(), done, sources, digests', s, content, ok, offset);
          assert NotYet(v0, v, s, sources, digests');
          AllStillWrites(v0, v, Now(), s, content, ok, offset, input);
        }
      }
    }

    /** The loop of Save over the snapshots. */
    method WriteAll(input: seq<Snapshot>, ghost v0: View, works: bool)
      returns (ok: bool, sources: map<string, Meta>, digests': map<string, Digest>, savedAt: int, changed: bool,
               ghost done: set<string>)
      requires saved.Some? && v0 == Now() && Inv(v0) && Loop(v0, v0, {}, record.sources, digests, input, 0)
      modifies this`files, this`snapshots, this`newer
      ensures if ok then Loop(v0, Now(), done, sources, digests', input, |input|) else Broken(v0, Now(), input)
      ensures ok && !changed ==> done == {} && sources == record.sources && files == old(files)
      ensures ok ==> AllAcceptable(input, |input|) && changed == (LastWritten(digests, input, |input|) >= 0)
      ensures ok ==> savedAt == SavedAt(digests, input, |input|, record.savedAt)
      ensures works && AllAcceptable(input, |input|) ==> ok
    {
      sources, digests', savedAt, changed, done := record.sources, digests, record.savedAt, false, {};
      for i := 0 to |input|
        invariant Loop(v0, Now(), done, sources, digests', input, i)
        invariant !changed ==> done == {} && sources == record.sources && files == old(files)
        invariant AllAcceptable(input, i) && changed == (LastWritten(digests, input, i) >= 0)
        invariant savedAt == SavedAt(digests, input, i, record.savedAt)
      {
        var wrote;
        ok, wrote, sources, digests', done := SaveOne(input, i, v0, sources, digests', done, works);
        if !ok {
          return;
        }
        if wrote {
          savedAt := input[i].collectedAt;
          changed := true;
        }
      }
      ok := true;
    }

    /** The record is replaced, or it is not; this may be reported wrongly as
        a failure, never as a success. */
    method Commit(next: Record, works: bool) returns (ok: bool)
      modifies this`saved
      ensures works ==> ok
      ensures saved == Some(next) || (saved == old(saved) && !ok)
    {
      var renamed: bool, synced: bool := *, *;
      if renamed || works {
        saved := Some(next);
      }
      return (renamed && synced) || works;
    }

    /** Save: writes the sources that changed and commits their windows. It fails
        if a snapshot is not acceptable, and else only if the disk does. */
    method Save(input: seq<Snapshot>, works: bool) returns (ok: bool)
      requires Valid()
      modifies this`files, this`snapshots, this`newer, this`saved, this`record, this`digests, this`failed
      ensures ok || Distinct(input) ==> Valid()
      ensures saved.Some? && failed == !ok && SaveEnd(old(Now()), Now(), input, ok)
      ensures !ok ==> record == old(record)
      ensures record == old(record) || record == saved.value
      ensures ok ==> AllAcceptable(input, |input|)
      ensures works && AllAcceptable(input, |input|) ==> ok
      ensures ok ==> record == old(record).(sources := record.sources,
                                            savedAt := SavedAt(old(digests), input, |input|, old(record).savedAt))
      ensures ok && LastWritten(old(digests), input, |input|) < 0 ==> saved == old(saved) && files == old(files)
    {
      ghost var v0 := Now();
      var sources, digests', savedAt, changed;
      ghost var done;
      LoopStarts(v0, input);
      ok, sources, digests', savedAt, changed, done := WriteAll(input, v0, works);
      if ok && changed {
        ok := Finish(input, sources, digests', savedAt, v0, done, works);
      } else if ok {
        failed := false;
        NothingDone(v0, Now(), sources, digests', input);
        NothingEnds(v0, input, sources, digests');
      } else {
        Abandon(input, v0);
      }
    }

    /** The deferred function of Save after an error in the loop. */
    method Abandon(input: seq<Snapshot>, ghost v0: View)
      requires saved.Some? && Inv(v0) && Broken(v0, Now(), input) && Now().disk == v0.disk && Now().memory == v0.memory
      modifies this`snapshots, this`digests, this`failed
      ensures failed && SaveEnd(v0, Now(), input, false)
      ensures Distinct(input) ==> Usable(Now())
    {
      ghost var v := Now();
      failed, digests, snapshots := true, map[], map[];
      BrokenEnds(v0, v, Now(), input);
    }

    /** The end of Save when sources were written. */
    method Finish(input: seq<Snapshot>, sources: map<string, Meta>, digests': map<string, Digest>, savedAt: int,
                  ghost v0: View, ghost done: set<string>, works: bool)
      returns (ok: bool)
      requires saved.Some? && Inv(v0) && Loop(v0, Now(), done, sources, digests', input, |input|)
      modifies this`snapshots, this`saved, this`record, this`digests, this`failed
      ensures saved.Some? && failed == !ok && SaveEnd(v0, Now(), input, ok)
      ensures saved == old(saved) || saved.value == old(record).(sources := saved.value.sources, savedAt := savedAt)
      ensures (works ==> ok) && (ok ==> saved.value == old(record).(sources := saved.value.sources, savedAt := savedAt))
      ensures ok || Distinct(input) ==> Usable(Now())
      ensures if ok then record == saved.value && record.bootId == old(record).bootId else record == old(record)
    {
      ghost var v := Now();
      var next := record.(sources := sources, savedAt := savedAt);
      ok := Commit(next, works);
      failed := !ok;
      if ok {
        record, digests := next, digests';
      } else {
        digests, snapshots := map[], map[];
      }
      FinishEnds(v0, v, Now(), done, sources, digests', input, ok);
    }

    /** NewArchive: opens the archive for a boot, after a restart or a crash. A
        new boot moves the older directories on. Any step can fail. */
    method NewArchive(bootId: string, startedAt: int, works: bool) returns (ok: bool)
      requires DiskOk()
      modifies this
      ensures works ==> ok
      ensures ok && (old(saved).None? || old(saved).value.bootId != bootId) ==>
                record == Record(bootId, startedAt, 0, map[])
      ensures DiskOk() && (ok ==> Valid() && record.bootId == bootId)
      ensures old(saved).Some? && old(saved).value.bootId == bootId ==>
                saved == old(saved) && files == old(files) && previous == old(previous) && older == old(older)
      ensures old(saved).Some? && old(saved).value.bootId != bootId ==>
                || (!ok && saved == old(saved) && files == old(files) && newer == old(newer))
                || (saved != old(saved) && previous == Some(Slot(old(saved), old(files))) && previousNewer == old(newer)
                    && newer == map[])
      ensures old(saved).None? ==> newer == old(newer) && previous == old(previous) && older == old(older)
      ensures ok && old(saved).Some? && old(saved).value.bootId != bootId ==> older == old(previous)
      ensures (newer == old(newer) || newer == map[]) && (ok ==> record == saved.value)
      ensures saved == old(saved) || saved.None? || saved.value.sources == map[]
      ensures previous == None || (previous == old(previous) && previousNewer == old(previousNewer))
              || (previous == Some(Slot(old(saved), old(files))) && previousNewer == old(newer))
      ensures older == None || older.value.record == None || (older == old(older) && olderNewer == old(olderNewer))
              || (older == old(previous) && olderNewer == old(previousNewer))
    {
      digests, snapshots, failed := map[], map[], false;
      if saved.Some? && saved.value.bootId != bootId {
        var removals: nat, allowed: nat := *, *;
        if works {
          removals, allowed := |SOURCES| + 2, 3;
        }
        var moves := Rotate(removals, allowed);
        ok := moves == 3;
        if !ok {
          return;
        }
      }
      var made: bool := *;
      if !made && !works {
        return false;
      }
      record := if saved.Some? then saved.value else Record(bootId, startedAt, 0, map[]);
      ok := Commit(record, works);
      if ok {
        OpenInv(Now());
      }
    }

    /** The directories move on: the oldest is removed, then each is renamed.
        `removals` of the removals work and `allowed` of the three moves. */
    method Rotate(removals: nat, allowed: nat) returns (moves: nat)
      requires DiskOk() && saved.Some?
      modifies this`files, this`saved, this`newer, this`previous, this`previousNewer, this`older, this`olderNewer
      ensures DiskOk() && RotationEnds(old(Disk()), Disk(), moves)
      ensures old(older) == None || removals >= |SOURCES| + 2 ==>
          moves == if allowed < 1 then 1 else if allowed < 3 then allowed else 3
      ensures moves < 3 ==> newer == old(newer) && (previous == None || previousNewer == old(previousNewer))
      ensures moves == 3 ==> newer == map[] && previousNewer == old(newer)
      ensures if moves < 2 then olderNewer == old(olderNewer) else olderNewer == old(previousNewer)
    {
      var removed := RemoveOlder(removals);
      if !removed {
        return 0;
      }
      if allowed <= 1 {
        return 1;
      }
      older, olderNewer, previous := previous, previousNewer, None;
      if allowed == 2 {
        return 2;
      }
      previous, previousNewer := Some(Slot(saved, files)), newer;
      saved, files, newer := None, map[], map[];
      return 3;
    }

    /** removeSlot for the oldest boot: boot.json goes first, so what is left of
        an interrupted removal is never read. `works` of the removals work. */
    method RemoveOlder(works: nat) returns (ok: bool)
      modifies this`older
      ensures ok <==> older == None
      ensures ok <==> old(older) == None || works >= |SOURCES| + 2
      ensures older == old(older) || older == None || older.value.record == None
    {
      if older == None {
        return true;
      }
      if works == 0 {
        return false;
      }
      older := Some(Slot(None, older.value.files));
      for i := 0 to |SOURCES|
        invariant older.Some? && older.value.record == None && works > i
      {
        if works == i + 1 {
          return false;
        }
        older := Some(Slot(None, older.value.files - {SOURCES[i]}));
      }
      if works == |SOURCES| + 1 {
        return false;
      }
      older := None;
      return true;
    }

    /** Read, without I/O errors. */
    method Read(p: Policy, slot: string, source: string) returns (r: Option<Snapshot>)
      requires FormatHigh(p) && DiskOk()
      ensures slot !in ["current", "previous", "older"] ==> r == None
      ensures slot == "current" ==> r == ReadFrom(p, saved, files, slot, source)
      ensures slot == "previous" ==>
          r == if previous.None? then None else ReadFrom(p, previous.value.record, previous.value.files, slot, source)
      ensures slot == "older" ==>
          r == if older.None? then None else ReadFrom(p, older.value.record, older.value.files, slot, source)
    {
      var at: Option<Slot>;
      if slot == "current" {
        at := Some(Slot(saved, files));
      } else if slot == "previous" {
        at := previous;
      } else if slot == "older" {
        at := older;
      } else {
        return None;
      }
      if at.None? || source !in SOURCES || at.value.record.None? || source !in at.value.record.value.sources {
        return None;
      }
      var meta := at.value.record.value.sources[source];
      if source !in at.value.files || |at.value.files[source]| > FILE_LIMIT {
        return None;
      }
      var (data, recovered) := CommittedSource(at.value.files[source], meta.window);
      var content, count, clipped := SanitizeTail(p, data, false);
      assert Outcome(content, count, clipped) == Sanitized(p, data, false);
      var state := if content == "" then Empty else Ready;
      r := Some(Snapshot(source, slot, state, content, count, meta.truncated || clipped
                         || recovered, meta.collectedAt));
    }
  }

  // ------------------------------------------------------------ reading back

  /** What is shown of a source, given its entry and its file. */
  function ReadSnapshot(p: Policy, slot: string, source: string, m: Meta, file: bytes): Snapshot {
    var (data, recovered) := CommittedSource(file, m.window);
    var o := Sanitized(p, data, false);
    Snapshot(source, slot, if o.content == "" then Empty else Ready, o.content, o.lines,
             m.truncated || o.truncated || recovered, m.collectedAt)
  }

  function ReadFrom(p: Policy, record: Option<Record>, files: map<string, bytes>, slot: string,
                    source: string): Option<Snapshot> {
    if source !in SOURCES || record.None? || source !in record.value.sources || source !in files
        || |files[source]| > FILE_LIMIT
    then None
    else Some(ReadSnapshot(p, slot, source, record.value.sources[source], files[source]))
  }

  /** The content of a snapshot as the collector produces it. */
  ghost predicate Collected(p: Policy, content: bytes, o: Outcome) {
    content == Encode(o.content) && exists data, truncated :: Sanitized(p, data, truncated) == o
  }

  /** What was committed is read back exactly, with the flags of its entry. */
  lemma ReadsCommitted(p: Policy, slot: string, source: string, m: Meta, file: bytes, o: Outcome)
    requires Lawful(p) && WindowOk(m.window) && Selects(file, m.window) && Collected(p, m.window.digest.of, o)
    ensures ReadSnapshot(p, slot, source, m, file)
      == Snapshot(source, slot, if o.content == "" then Empty else Ready, o.content, o.lines, m.truncated,
                  m.collectedAt)
  {
    var data, truncated :| Sanitized(p, data, truncated) == o;
    CommittedExactly(file, m.window);
    Idempotent(p, data, truncated);
  }

  /** After any crash, what is read is the last committed snapshot, or the
      complete newer one that had replaced the file, marked as truncated. */
  lemma ReadsCommittedOrNewer(p: Policy, slot: string, source: string, m: Meta, file: bytes, newer: bytes, o: Outcome,
                              n: Outcome)
    requires Lawful(p) && Held(file, m.window, newer) && Collected(p, m.window.digest.of, o) && Collected(p, newer, n)
    ensures var r := ReadSnapshot(p, slot, source, m, file);
      || (r.content == o.content && r.lines == o.lines && r.truncated == m.truncated)
      || (r.content == n.content && r.lines == n.lines && r.truncated)
  {
    if Selects(file, m.window) {
      ReadsCommitted(p, slot, source, m, file, o);
    } else {
      CommittedExactly(file, m.window);
      var data, truncated :| Sanitized(p, data, truncated) == n;
      Idempotent(p, data, truncated);
    }
  }

  /** After a successful Save every snapshot is read back with its content and
      lines. Its flags come back, too, if and only if its content was new or
      they are those of the entry that was there. */
  lemma SavedReadsBack(p: Policy, v0: View, v: View, record: Record, s: Snapshot, o: Outcome)
    requires Lawful(p) && Inv(v) && v.memory == record.sources == v.disk && s.source in SOURCES
    requires Recorded(v0, v.memory, v.digests, s)
    requires Collected(p, Encode(s.content), o) && s.content == o.content && s.lines == o.lines
    ensures var r := ReadFrom(p, Some(record), v.files, "current", s.source);
      && r.Some? && r.value.content == s.content && r.value.lines == s.lines
      && (r.value.truncated == s.truncated && r.value.collectedAt == s.collectedAt
          <==> (At(v0.digests, s.source) == Some(Digest(Encode(s.content))) ==>
                  s.source in v0.memory && v0.memory[s.source].truncated == s.truncated
                  && v0.memory[s.source].collectedAt == s.collectedAt))
  {
    assert SourceInv(v, s.source);
    ReadsCommitted(p, "current", s.source, v.memory[s.source], v.files[s.source], o);
  }

  // ------------------------------------------------------------ whole lifetimes

  /** What the server does with the archive: a Save, or a start after a crash,
      a restart or a reboot. With `works` no access to the disk fails; after a
      Save the server may crash. */
  datatype Operation =
    | Saves(input: seq<Snapshot>, works: bool, crashes: bool)
    | Starts(bootId: string, startedAt: int, works: bool)

  /** What came of it: whether the Save reported success, whether the start made
      another boot the current one, or that no archive was open. */
  datatype Report = Saved(ok: bool) | Started(moved: bool) | Closed

  /** The input has a snapshot of source `s` that a Save does not pass over. */
  predicate Offers(input: seq<Snapshot>, s: string) {
    exists j :: 0 <= j < |input| && !input[j].state.Unavailable? && input[j].source == s
  }

  /** The last of the first `n` operations that was a successful Save with a
      snapshot of `s`, in the boot that is the current one after them; or -1. */
  function LastSaved(script: seq<Operation>, reports: seq<Report>, n: nat, s: string): (k: int)
    requires n <= |script| && n <= |reports|
    ensures -1 <= k < n
    ensures k >= 0 ==> script[k].Saves? && reports[k] == Saved(true) && Offers(script[k].input, s)
  {
    if n == 0 then -1
    else if reports[n - 1] == Started(true) then -1
    else if reports[n - 1] == Saved(true) && script[n - 1].Saves? && Offers(script[n - 1].input, s) then n - 1
    else LastSaved(script, reports, n - 1, s)
  }

  /** Operation `k` was a Save that was given this content for `s`. */
  ghost predicate GivenAt(script: seq<Operation>, k: int, s: string, content: bytes) {
    0 <= k < |script| && script[k].Saves? && Given(script[k].input, s, content)
  }

  /** The window was committed with a content of operation `i`, and either still
      selects it or has lost it to a content of a later operation. */
  ghost predicate Traced(script: seq<Operation>, n: nat, files: map<string, bytes>, newer: map<string, bytes>,
                         rewrite: map<string, int>, s: string, w: Window, i: int)
  {
    && 0 <= i < n && GivenAt(script, i, s, w.digest.of)
    && (|| SelectsIn(files, s, w)
        || (s in newer && s in rewrite && i < rewrite[s] < n && GivenAt(script, rewrite[s], s, newer[s])))
  }

  /** Where the entries of a record, and the contents that replaced its files,
      came from. */
  datatype Trail = Trail(entry: map<string, int>, rewrite: map<string, int>)

  ghost predicate AllTraced(script: seq<Operation>, n: nat, files: map<string, bytes>, newer: map<string, bytes>,
                            sources: map<string, Meta>, trail: Trail)
  {
    forall s :: s in sources ==>
      s in trail.entry && Traced(script, n, files, newer, trail.rewrite, s, sources[s].window, trail.entry[s])
  }

  ghost predicate SlotTraced(script: seq<Operation>, n: nat, slot: Option<Slot>, newer: map<string, bytes>,
                             trail: Trail) {
    slot.Some? && slot.value.record.Some? ==>
      AllTraced(script, n, slot.value.files, newer, slot.value.record.value.sources, trail)
  }

  /** No entry is older than the last successful Save of its source. */
  ghost predicate Latest(script: seq<Operation>, reports: seq<Report>, n: nat, sources: map<string, Meta>,
                         entry: map<string, int>)
    requires n <= |script| && n <= |reports|
  {
    forall s :: LastSaved(script, reports, n, s) >= 0 ==>
      s in sources && s in entry && entry[s] >= LastSaved(script, reports, n, s)
  }

  // one Save

  /** The operation that each entry comes from after Save number `n`. */
  ghost function NextEntry(v0: View, sources: map<string, Meta>, input: seq<Snapshot>, ok: bool, n: nat,
                           entry: map<string, int>, memory: map<string, int>): map<string, int>
  {
    map s | s in sources ::
      if ok && Offers(input, s) then n
      else if At(v0.disk, s) == Some(sources[s]) && s in entry then entry[s]
      else if At(v0.memory, s) == Some(sources[s]) && s in memory then memory[s]
      else n
  }

  ghost function NextRewrite(newer: map<string, bytes>, input: seq<Snapshot>, n: nat,
                             rewrite: map<string, int>): map<string, int> {
    map s | s in newer :: if Given(input, s, newer[s]) then n else if s in rewrite then rewrite[s] else n
  }

  lemma {:induction false} TraceMoves(script: seq<Operation>, n: nat, v0: View, v: View, input: seq<Snapshot>,
                                      rewrite: map<string, int>,
                   s: string, w: Window, i: int)
    requires n < |script| && script[n].Saves? && script[n].input == input && NewerGiven(v0.newer, v.newer, input)
    requires StillOrNew(v0, v, s, w, input) && Traced(script, n, v0.files, v0.newer, rewrite, s, w, i)
    ensures Traced(script, n + 1, v.files, v.newer, NextRewrite(v.newer, input, n, rewrite), s, w, i)
  {
    if !SelectsIn(v.files, s, w) {
      assert At(v.newer, s) == At(v0.newer, s) || (s in v.newer && Given(input, s, v.newer[s]));
    }
  }

  /** A Save of different sources that came to `ok`. */
  ghost predicate SaveStep(v0: View, v: View, input: seq<Snapshot>, ok: bool) {
    Distinct(input) && SaveEnd(v0, v, input, ok) && (ok ==> Inv(v))
  }

  /** A successful Save left the content that was offered, selected by both
      records. */
  lemma {:induction false} OfferedSelected(v0: View, v: View, input: seq<Snapshot>, s: string)
    requires SaveStep(v0, v, input, true) && Offers(input, s)
    ensures s in v.disk && v.memory == v.disk && SelectsIn(v.files, s, v.disk[s].window)
        && Given(input, s, v.disk[s].window.digest.of)
  {
    var j :| 0 <= j < |input| && !input[j].state.Unavailable? && input[j].source == s;
    assert Recorded(v0, v.disk, v.digests, input[j]);
    assert SourceInv(v, s);
    assert s in v.digests;
  }

  lemma {:induction false} EntryTraced(script: seq<Operation>, n: nat, v0: View, v: View, input: seq<Snapshot>,
                                       ok: bool, cur: Trail, memory: map<string, int>,
                    sources: map<string, Meta>, s: string)
    requires n < |script| && script[n].Saves? && script[n].input == input && SaveStep(v0, v, input, ok)
    requires AllTraced(script, n, v0.files, v0.newer, v0.disk, cur)
    requires AllTraced(script, n, v0.files, v0.newer, v0.memory, cur.(entry := memory))
    requires (sources == v.disk || sources == v.memory) && s in sources
    ensures var entry := NextEntry(v0, sources, input, ok, n, cur.entry, memory);
      Traced(script, n + 1, v.files, v.newer, NextRewrite(v.newer, input, n, cur.rewrite), s, sources[s].window,
             entry[s])
  {
    if ok && Offers(input, s) {
      OfferedSelected(v0, v, input, s);
    } else if At(v0.disk, s) == Some(sources[s]) {
      TraceMoves(script, n, v0, v, input, cur.rewrite, s, sources[s].window, cur.entry[s]);
    } else if At(v0.memory, s) == Some(sources[s]) {
      TraceMoves(script, n, v0, v, input, cur.rewrite, s, sources[s].window, memory[s]);
    }
  }

  lemma {:induction false} SaveTraced(script: seq<Operation>, n: nat, v0: View, v: View, input: seq<Snapshot>, ok: bool,
                                      cur: Trail, memory: map<string, int>)
    requires n < |script| && script[n].Saves? && script[n].input == input && SaveStep(v0, v, input, ok)
    requires AllTraced(script, n, v0.files, v0.newer, v0.disk, cur)
    requires AllTraced(script, n, v0.files, v0.newer, v0.memory, cur.(entry := memory))
    ensures var rewrite := NextRewrite(v.newer, input, n, cur.rewrite);
      && AllTraced(script, n + 1, v.files, v.newer, v.disk,
                   Trail(NextEntry(v0, v.disk, input, ok, n, cur.entry, memory), rewrite))
      && AllTraced(script, n + 1, v.files, v.newer, v.memory,
                   Trail(NextEntry(v0, v.memory, input, ok, n, cur.entry, memory), rewrite))
  {
    forall s | s in v.disk
      ensures Traced(script, n + 1, v.files, v.newer, NextRewrite(v.newer, input, n, cur.rewrite), s, v.disk[s].window,
                     NextEntry(v0, v.disk, input, ok, n, cur.entry, memory)[s])
    {
      EntryTraced(script, n, v0, v, input, ok, cur, memory, v.disk, s);
    }
    forall s | s in v.memory
      ensures Traced(script, n + 1, v.files, v.newer, NextRewrite(v.newer, input, n, cur.rewrite), s,
                     v.memory[s].window,
                     NextEntry(v0, v.memory, input, ok, n, cur.entry, memory)[s])
    {
      EntryTraced(script, n, v0, v, input, ok, cur, memory, v.memory, s);
    }
  }

  /** The last successful Save after one more operation. */
  lemma {:induction false} LastSavedNow(script: seq<Operation>, reports: seq<Report>, n: nat, s: string, ok: bool)
    requires n < |script| && n < |reports| && script[n].Saves? && reports[n] == Saved(ok)
    ensures LastSaved(script, reports, n + 1, s)
         == if ok && Offers(script[n].input, s) then n else LastSaved(script, reports, n, s)
  {
  }

  /** An entry map that is no older than `last` stays so. */
  ghost predicate NoOlder(sources: map<string, Meta>, entry: map<string, int>, s: string, last: int) {
    last >= 0 ==> s in sources && s in entry && entry[s] >= last
  }

  lemma {:induction false} SaveLatest(script: seq<Operation>, reports: seq<Report>, n: nat, v0: View, v: View,
                                      input: seq<Snapshot>,
                                      ok: bool, entry: map<string, int>, memory: map<string, int>)
    requires n < |script| && n < |reports| && script[n].Saves? && script[n].input == input && reports[n] == Saved(ok)
        && SaveStep(v0, v, input, ok)
    requires Latest(script, reports, n, v0.disk, entry) && Latest(script, reports, n, v0.memory, memory)
    ensures Latest(script, reports, n + 1, v.disk, NextEntry(v0, v.disk, input, ok, n, entry, memory))
    ensures Latest(script, reports, n + 1, v.memory, NextEntry(v0, v.memory, input, ok, n, entry, memory))
  {
    var m := n + 1;
    forall s
      ensures NoOlder(v.disk, NextEntry(v0, v.disk, input, ok, n, entry, memory), s, LastSaved(script, reports, m, s))
      ensures NoOlder(v.memory, NextEntry(v0, v.memory, input, ok, n, entry, memory), s,
                      LastSaved(script, reports, m, s))
    {
      LastSavedNow(script, reports, n, s, ok);
      OneLatest(v0, v, input, ok, n, entry, memory, s, LastSaved(script, reports, n, s));
    }
    FromNoOlder(script, reports, m, v.disk, NextEntry(v0, v.disk, input, ok, n, entry, memory));
    FromNoOlder(script, reports, m, v.memory, NextEntry(v0, v.memory, input, ok, n, entry, memory));
  }

  lemma {:induction false} FromNoOlder(script: seq<Operation>, reports: seq<Report>, n: nat, sources: map<string, Meta>,
                                       entry: map<string, int>)
    requires n <= |script| && n <= |reports|
    requires forall s :: NoOlder(sources, entry, s, LastSaved(script, reports, n, s))
    ensures Latest(script, reports, n, sources, entry)
  {
    forall s | LastSaved(script, reports, n, s) >= 0
      ensures s in sources && s in entry && entry[s] >= LastSaved(script, reports, n, s) {
      assert NoOlder(sources, entry, s, LastSaved(script, reports, n, s));
    }
  }

  lemma {:induction false} OneLatest(v0: View, v: View, input: seq<Snapshot>, ok: bool, n: nat, entry: map<string, int>,
                                     memory: map<string, int>, s: string, last: int)
    requires SaveStep(v0, v, input, ok) && last < n
    requires last >= 0 ==> s in v0.disk && s in v0.memory && s in entry && s in memory && entry[s] >= last
                           && memory[s] >= last
    ensures ok && Offers(input, s) ==>
        s in v.disk && s in v.memory && NextEntry(v0, v.disk, input, ok, n, entry, memory)[s] == n
                                       && NextEntry(v0, v.memory, input, ok, n, entry, memory)[s] == n
    ensures last >= 0 ==> s in v.disk && s in v.memory && NextEntry(v0, v.disk, input, ok, n, entry, memory)[s] >= last
                          && NextEntry(v0, v.memory, input, ok, n, entry, memory)[s] >= last
  {
    if ok && Offers(input, s) {
      OfferedSelected(v0, v, input, s);
    }
    if last >= 0 {
      assert s in v0.memory.Keys;
    }
  }

  lemma {:induction false} TracedLater(script: seq<Operation>, n: nat, slot: Option<Slot>, newer: map<string, bytes>,
                                       trail: Trail)
    requires SlotTraced(script, n, slot, newer, trail)
    ensures SlotTraced(script, n + 1, slot, newer, trail)
  {
    if slot.Some? && slot.value.record.Some? {
      var sources := slot.value.record.value.sources;
      forall s | s in sources
        ensures s in trail.entry && Traced(script, n + 1, slot.value.files, newer, trail.rewrite, s, sources[s].window,
                                           trail.entry[s])
      {
        assert Traced(script, n, slot.value.files, newer, trail.rewrite, s, sources[s].window, trail.entry[s]);
      }
    }
  }

  /** The trails of the three boots and of the record in memory. */
  datatype Trails = Trails(current: Trail, previous: Trail, older: Trail, memory: map<string, int>)

  /** Everything on the disk is traced, and what an open archive remembers. */
  ghost predicate Tracked(a: Archive, open: bool, script: seq<Operation>, reports: seq<Report>, n: nat, t: Trails)
    requires n <= |script| && n <= |reports|
    reads a
  {
    && a.DiskOk() && (open ==> a.Valid())
    && SlotTraced(script, n, Some(Slot(a.saved, a.files)), a.newer, t.current)
    && SlotTraced(script, n, a.previous, a.previousNewer, t.previous)
        && SlotTraced(script, n, a.older, a.olderNewer, t.older)
    && Latest(script, reports, n, if a.saved.Some? then a.saved.value.sources else map[], t.current.entry)
    && (open ==> && AllTraced(script, n, a.files, a.newer, a.record.sources, t.current.(entry := t.memory))
                 && Latest(script, reports, n, a.record.sources, t.memory))
  }

  /** A Save, and whether the server still runs after it. */
  method OperateSave(a: Archive, script: seq<Operation>, ghost reports: seq<Report>, n: nat, ghost t: Trails)
    returns (open: bool, report: Report, ghost t': Trails)
    requires n < |script| && n == |reports| && script[n].Saves? && Distinct(script[n].input)
        && Tracked(a, true, script, reports, n, t)
    modifies a
    ensures Tracked(a, open, script, reports + [report], n + 1, t')
    ensures open == !script[n].crashes && report.Saved? && (SaveWorks(script[n]) ==> report.ok)
    ensures SavedBoot(a) == old(SavedBoot(a))
  {
    var input := script[n].input;
    ghost var v0 := a.Now();
    var ok := a.Save(input, script[n].works);
    ghost var v := a.Now();
    open, report := !script[n].crashes, Saved(ok);
    ghost var rewrite := NextRewrite(v.newer, input, n, t.current.rewrite);
    t' := t.(current := Trail(NextEntry(v0, v.disk, input, ok, n, t.current.entry, t.memory), rewrite),
             memory := NextEntry(v0, v.memory, input, ok, n, t.current.entry, t.memory));
    SaveTraced(script, n, v0, v, input, ok, t.current, t.memory);
    PrefixLatest(script, reports, [report], n, v0.disk, t.current.entry);
    PrefixLatest(script, reports, [report], n, v0.memory, t.memory);
    SaveLatest(script, reports + [report], n, v0, v, input, ok, t.current.entry, t.memory);
    TracedLater(script, n, a.previous, a.previousNewer, t.previous);
    TracedLater(script, n, a.older, a.olderNewer, t.older);
  }

  lemma {:induction false} LastSavedPrefix(script: seq<Operation>, reports: seq<Report>, more: seq<Report>, n: nat,
                                           s: string)
    requires n <= |script| && n <= |reports|
    ensures LastSaved(script, reports + more, n, s) == LastSaved(script, reports, n, s)
  {
    if n > 0 {
      LastSavedPrefix(script, reports, more, n - 1, s);
    }
  }

  lemma {:induction false} PrefixLatest(script: seq<Operation>, reports: seq<Report>, more: seq<Report>, n: nat,
                                        sources: map<string, Meta>, entry: map<string, int>)
    requires n <= |script| && n <= |reports| && Latest(script, reports, n, sources, entry)
    ensures Latest(script, reports + more, n, sources, entry)
  {
    forall s | LastSaved(script, reports + more, n, s) >= 0
      ensures s in sources && s in entry && entry[s] >= LastSaved(script, reports + more, n, s)
    {
      LastSavedPrefix(script, reports, more, n, s);
    }
  }

  /** A step that is no Save. */
  lemma {:induction false} OtherLatest(script: seq<Operation>, reports: seq<Report>, report: Report, n: nat,
                                       sources: map<string, Meta>, entry: map<string, int>)
    requires n < |script| && n == |reports| && !report.Saved?
    requires Latest(script, reports, n, sources, entry) || report == Started(true)
    ensures Latest(script, reports + [report], n + 1, sources, entry)
  {
    forall s | LastSaved(script, reports + [report], n + 1, s) >= 0
      ensures s in sources && s in entry && entry[s] >= LastSaved(script, reports + [report], n + 1, s)
    {
      LastSavedPrefix(script, reports, [report], n, s);
    }
  }

  method OperateStart(a: Archive, script: seq<Operation>, ghost reports: seq<Report>, n: nat, ghost t: Trails)
    returns (open: bool, report: Report, ghost t': Trails)
    requires n < |script| && n == |reports| && script[n].Starts? && Tracked(a, false, script, reports, n, t)
    modifies a
    ensures Tracked(a, open, script, reports + [report], n + 1, t')
    ensures (script[n].works ==> open) && (open ==> SavedBoot(a) == Some(script[n].bootId))
    ensures old(SavedBoot(a)) == Some(script[n].bootId) ==>
        SavedBoot(a) == old(SavedBoot(a)) && report == Started(false)
  {
    var before := a.saved;
    TracedLater(script, n, Some(Slot(a.saved, a.files)), a.newer, t.current);
    TracedLater(script, n, a.previous, a.previousNewer, t.previous);
    TracedLater(script, n, a.older, a.olderNewer, t.older);
    ghost var sources := if a.saved.Some? then a.saved.value.sources else map[];
    open := a.NewArchive(script[n].bootId, script[n].startedAt, script[n].works);
    report := Started(before.Some? && a.saved != before);
    OtherLatest(script, reports, report, n, sources, t.current.entry);
    t' := t.(memory := t.current.entry,
             previous := if SlotTraced(script, n + 1, a.previous, a.previousNewer, t.previous) then t.previous
                 else t.current,
             older := if SlotTraced(script, n + 1, a.older, a.olderNewer, t.older) then t.older else t.previous);
  }

  /** Runs a script on an empty disk: any failures, crashes and reboots. */
  method Lifetime(script: seq<Operation>) returns (a: Archive, reports: seq<Report>, ghost t: Trails)
    requires forall i :: 0 <= i < |script| && script[i].Saves? ==> Distinct(script[i].input)
    ensures fresh(a) && |reports| == |script| && Tracked(a, false, script, reports, |script|, t)
    ensures SureReports(script, reports, |script|)
  {
    a := new Archive();
    reports, t := [], Trails(Trail(map[], map[]), Trail(map[], map[]), Trail(map[], map[]), map[]);
    var open := false;
    for i := 0 to |script|
      invariant fresh(a) && |reports| == i && Tracked(a, open, script, reports, i, t)
      invariant SureReports(script, reports, i) && (OpenFor(script, i) ==> open)
      invariant InBoot(script, i, SavedBoot(a))
    {
      var report;
      ghost var boot := SavedBoot(a);
      match script[i]
      case Starts(_, _, _) =>
        open, report, t := OperateStart(a, script, reports, i, t);
        SureStep(script, reports, i, boot, report, SavedBoot(a));
        reports := reports + [report];
      case Saves(_, _, _) =>
        if open {
          open, report, t := OperateSave(a, script, reports, i, t);
        } else {
          report := Closed;
          NothingTracked(a, script, reports, i, t);
        }
        SureStep(script, reports, i, boot, report, SavedBoot(a));
        reports := reports + [report];
    }
  }

  // what surely happens while the disk works

  ghost function SavedBoot(a: Archive): Option<string>
    reads a
  {
    if a.saved.Some? then Some(a.saved.value.bootId) else None
  }

  /** A Save that succeeds if the archive is open. */
  predicate SaveWorks(o: Operation) {
    o.Saves? && o.works && AllAcceptable(o.input, |o.input|)
  }

  /** After the first `n` operations the archive is open: it was opened, and the
      server did not crash since. */
  predicate OpenFor(script: seq<Operation>, n: nat)
    requires n <= |script|
  {
    n > 0
    && match script[n - 1]
       case Starts(_, _, works) => works
       case Saves(_, _, crashes) => OpenFor(script, n - 1) && !crashes
  }

  /** The boot of the last start among the first `n` operations. */
  function BootOf(script: seq<Operation>, n: nat): string
    requires n <= |script|
  {
    if n == 0 then "" else if script[n - 1].Starts? then script[n - 1].bootId else BootOf(script, n - 1)
  }

  /** Operations `k` to `n` start no other boot than the one before them. */
  predicate StaysIn(script: seq<Operation>, k: nat, n: nat)
    requires k <= n <= |script|
  {
    forall j :: k <= j < n && script[j].Starts? ==> script[j].bootId == BootOf(script, k)
  }

  /** The Saves that must work are reported so, and no start is reported to have
      moved a boot that the server stayed in. */
  ghost predicate SureReports(script: seq<Operation>, reports: seq<Report>, n: nat)
    requires n <= |script| && n <= |reports|
  {
    && (forall k :: 0 <= k < n && OpenFor(script, k) && SaveWorks(script[k]) ==> reports[k] == Saved(true))
    && (forall k, j :: 0 <= k <= j < n && OpenFor(script, k) && StaysIn(script, k, j + 1) ==>
        reports[j] != Started(true))
  }

  ghost predicate InBoot(script: seq<Operation>, n: nat, boot: Option<string>)
    requires n <= |script|
  {
    forall k :: 0 <= k <= n && OpenFor(script, k) && StaysIn(script, k, n) ==> boot == Some(BootOf(script, k))
  }

  lemma {:induction false} SureStep(script: seq<Operation>, reports: seq<Report>, n: nat, boot: Option<string>,
                                    report: Report, boot': Option<string>)
    requires n < |script| && n == |reports| && SureReports(script, reports, n) && InBoot(script, n, boot)
    requires script[n].Saves? ==> boot' == boot && !report.Started?
    requires script[n].Saves? && OpenFor(script, n) && SaveWorks(script[n]) ==> report == Saved(true)
    requires script[n].Starts? && boot == Some(script[n].bootId) ==> boot' == boot && report == Started(false)
    requires script[n].Starts? && script[n].works ==> boot' == Some(script[n].bootId)
    ensures SureReports(script, reports + [report], n + 1) && InBoot(script, n + 1, boot')
  {
    assert StaysIn(script, n, n);
    forall k | 0 <= k <= n && OpenFor(script, k) && StaysIn(script, k, n + 1)
      ensures boot' == Some(BootOf(script, k)) && report != Started(true)
    {
      assert StaysIn(script, k, n);
    }
    assert OpenFor(script, n + 1) ==> boot' == Some(BootOf(script, n + 1));
  }

  /** Operation `k` surely saves the source, in the boot that stays current. */
  predicate SurelySaves(script: seq<Operation>, k: nat, s: string)
    requires k < |script|
  {
    OpenFor(script, k) && SaveWorks(script[k]) && StaysIn(script, k, |script|) && Offers(script[k].input, s)
  }

  /** A source that was saved while the disk worked stays saved. */
  lemma {:induction false} SureSaved(script: seq<Operation>, reports: seq<Report>, n: nat, k: nat, s: string)
    requires k < n <= |script| && n <= |reports| && SureReports(script, reports, n)
    requires OpenFor(script, k) && SaveWorks(script[k]) && Offers(script[k].input, s) && StaysIn(script, k, n)
    ensures LastSaved(script, reports, n, s) >= k
  {
    if k < n - 1 {
      SureSaved(script, reports, n - 1, k, s);
    }
  }

  /** A Save without an open archive does nothing. */
  lemma {:induction false} NothingTracked(a: Archive, script: seq<Operation>, reports: seq<Report>, n: nat, t: Trails)
    requires n < |script| && n == |reports| && Tracked(a, false, script, reports, n, t)
    ensures Tracked(a, false, script, reports + [Closed], n + 1, t)
  {
    TracedLater(script, n, Some(Slot(a.saved, a.files)), a.newer, t.current);
    TracedLater(script, n, a.previous, a.previousNewer, t.previous);
    TracedLater(script, n, a.older, a.olderNewer, t.older);
    OtherLatest(script, reports, Closed, n, if a.saved.Some? then a.saved.value.sources else map[], t.current.entry);
  }

  /** What is read of a traced slot is what was committed, given to operation
      `i`, or, marked as truncated, what was given to a later operation. */
  ghost predicate ReadsFrom(p: Policy, script: seq<Operation>, source: string, r: Snapshot, i: int) {
    exists c :: GivenAt(script, i, source, c) && (
      || ShowsContent(p, r, c)
      || (r.truncated && exists k, d :: i < k && GivenAt(script, k, source, d) && ShowsContent(p, r, d)))
  }

  ghost predicate ShowsContent(p: Policy, r: Snapshot, c: bytes) {
    r.content == Sanitized(p, c + NL, false).content && r.lines == Sanitized(p, c + NL, false).lines
  }

  lemma {:induction false} ReadsTraced(p: Policy, script: seq<Operation>, n: nat, slot: Slot, newer: map<string, bytes>,
                                       trail: Trail,
                                       name: string, source: string)
    requires SlotOk(Some(slot), newer) && SlotTraced(script, n, Some(slot), newer, trail)
    requires ReadFrom(p, slot.record, slot.files, name, source).Some?
    ensures source in trail.entry
    ensures ReadsFrom(p, script, source, ReadFrom(p, slot.record, slot.files, name, source).value, trail.entry[source])
  {
    var m, file := slot.record.value.sources[source], slot.files[source];
    var r := ReadFrom(p, slot.record, slot.files, name, source).value;
    CommittedExactly(file, m.window);
    if Selects(file, m.window) {
      assert ShowsContent(p, r, m.window.digest.of);
    } else {
      assert file == newer[source] + NL;
      assert ShowsContent(p, r, newer[source]) && GivenAt(script, trail.rewrite[source], source, newer[source]);
    }
  }

  /** After any lifetime: what is read of any boot is a complete snapshot that a
      Save was given for that source, the committed one or a later one. In the
      current boot, a source with a successful Save can be read, and what is read
      is not older than the last of them: it is that committed snapshot, or one
      that was given to a later Save. */
  method ReadAfter(script: seq<Operation>, p: Policy, slot: string, source: string)
    returns (r: Option<Snapshot>, reports: seq<Report>)
    requires FormatHigh(p) && forall i :: 0 <= i < |script| && script[i].Saves? ==> Distinct(script[i].input)
    ensures |reports| == |script|
    ensures r.Some? ==> exists i :: 0 <= i < |script| && ReadsFrom(p, script, source, r.value, i)
    ensures forall k :: 0 <= k < |script| && SurelySaves(script, k, source) ==>
              LastSaved(script, reports, |script|, source) >= k
    ensures slot == "current" && source in SOURCES && LastSaved(script, reports, |script|, source) >= 0 ==>
      r.Some? && exists i :: LastSaved(script, reports, |script|, source) <= i < |script|
                             && ReadsFrom(p, script, source, r.value, i)
  {
    var a;
    ghost var t;
    a, reports, t := Lifetime(script);
    forall k | 0 <= k < |script| && SurelySaves(script, k, source)
      ensures LastSaved(script, reports, |script|, source) >= k
    {
      SureSaved(script, reports, |script|, k, source);
    }
    r := a.Read(p, slot, source);
    if r.Some? {
      ghost var (at, newer, trail) :=
        if slot == "current" then (Slot(a.saved, a.files), a.newer, t.current)
        else if slot == "previous" then (a.previous.value, a.previousNewer, t.previous)
        else (a.older.value, a.olderNewer, t.older);
      ReadsTraced(p, script, |script|, at, newer, trail, slot, source);
      assert Traced(script, |script|, at.files, newer, trail.rewrite, source, at.record.value.sources[source].window,
                    trail.entry[source]);
    }
  }

  /** Such scripts exist: a start and a Save of one line. */
  lemma SureExample()
    ensures var script := [Starts("boot", 1, true),
                           Saves([Snapshot("system", "current", Ready, "a", 1, false, 5)], true, false)];
      && SurelySaves(script, 1, "system") && Distinct(script[1].input)
  {
    var s := Snapshot("system", "current", Ready, "a", 1, false, 5);
    assert EncodeFirst("a", 0) == [] && |EncodeFirst("a", 1)| == 1;
    assert SOURCES[0] == "system";
    assert Acceptable(s);
    var input := [s];
    assert input[0].source == "system";
  }

  // ------------------------------------------- why the sources must differ

  function Twice0(s: string): View {
    var entry := map[s := Meta(1, false, 0, Window(0, 2, Digest([97])))];
    View(map[s := [97, 10]], entry, entry, map[], map[], map[s := [97]])
  }

  function Twice1(s: string): View {
    Twice0(s).(files := map[s := [98, 10]], snapshots := map[s := [98]], newer := map[s := [98]])
  }

  function Twice2(s: string): View {
    Twice1(s).(files := map[s := [98, 10, 99, 10]], snapshots := map[])
  }

  lemma {:induction false} TwiceStarts(s: string)
    ensures Inv(Twice0(s))
  {
    var v := Twice0(s);
    assert v.files[s] == [97] + NL;
    assert v.files[s][0..2] == [97] + NL;
    forall t ensures SourceInv(v, t) {
    }
  }

  lemma {:induction false} TwiceRewrites(s: string)
    ensures Wrote(Twice0(s), Twice1(s), s, [98], true, 0)
  {
    var c: bytes := [98];
    assert c + NL == [98, 10];
    RewriteWrote(Twice0(s), Twice1(s), s, c, true);
  }

  /** The second write appends what follows "b". */
  lemma {:induction false} TwiceDelta()
    ensures Delta([98], [98, 10, 99, 10, 100]) == Some([99, 10, 100, 10])
  {
    var previous: bytes, more: bytes := [98], [99, 10, 100];
    var content := previous + NL + more;
    assert content == [98, 10, 99, 10, 100] && more + NL == [99, 10, 100, 10] && AppendAnchor(previous) == previous;
    assert content[0..1] == previous;
    forall j: nat | OccursAt(content, previous, j) ensures j == 0 {
      assert content[j..j + 1][0] == content[j];
    }
    GrowthIsAppended(previous, more);
  }

  /** It stops after the first line. */
  lemma {:induction false} TwiceTorn(s: string)
    ensures Torn(Twice1(s).files, Twice2(s).files, s, [99, 10, 100, 10])
    ensures Wrote(Twice1(s), Twice2(s), s, [98, 10, 99, 10, 100], false, 0)
  {
    var delta: bytes := [99, 10, 100, 10];
    assert delta[..2] == [99, 10] && [98, 10] + delta[..2] == [98, 10, 99, 10];
    assert Twice2(s).files[s][..2] == [98, 10];
    assert Extended(Twice1(s), Twice2(s), s);
  }

  lemma {:induction false} TwiceText()
    ensures Encode("b\nc") + NL == [98, 10, 99, 10] && Join(["b", "c"]) == "b\nc"
  {
    var text := "b\nc";
    assert EncodeFirst(text, 0) == [] && EncodeFirst(text, 1) == [98] && EncodeFirst(text, 2) == [98, 10];
    assert EncodeFirst(text, 3) == [98, 10, 99];
    assert JoinFirst(["b", "c"], 1) == "b";
  }

  lemma {:induction false} TwiceSettled(p: Policy)
    requires Lawful(p) && Plain(p, "b") && Plain(p, "c")
    ensures Settled(p, ["b", "c"])
  {
    var kept := ["b", "c"];
    Printable(p, "b");
    Printable(p, "c");
    assert Size("b", 0) == 0 && Size("c", 0) == 0;
    assert Weight(kept, 2) == 0 && Weight(kept, 1) == 2 && Weight(kept, 0) == 4;
  }

  /** The file is read as two lines. */
  lemma {:induction false} TwiceRead(p: Policy, s: string)
    requires Lawful(p) && Plain(p, "b") && Plain(p, "c")
    ensures var file, w := Twice2(s).files[s], Twice0(s).disk[s].window;
      CommittedSource(file, w) == (file, true) && Sanitized(p, file, false).content == "b\nc"
  {
    var file, w := Twice2(s).files[s], Twice0(s).disk[s].window;
    assert file[0..2][0] == 98 && ([97] + NL)[0] == 97;
    CommittedExactly(file, w);
    TwiceText();
    TwiceSettled(p);
    SettledRead(p, ["b", "c"]);
  }

  /** Why Save relies on different sources: if it wrote one twice, a rewrite for
      the first snapshot and a torn append for the second would leave a file
      that is read as neither. The source was committed as "a", the snapshots
      are "b" and the three lines b, c, d, and what is read is b, c. */
  lemma {:induction false} DuplicatesBreak(p: Policy, s: string)
    requires Lawful(p) && Plain(p, "b") && Plain(p, "c")
    ensures Inv(Twice0(s)) && Wrote(Twice0(s), Twice1(s), s, [98], true, 0)
    ensures Delta([98], [98, 10, 99, 10, 100]) == Some([99, 10, 100, 10])
    ensures Torn(Twice1(s).files, Twice2(s).files, s, [99, 10, 100, 10])
    ensures Wrote(Twice1(s), Twice2(s), s, [98, 10, 99, 10, 100], false, 0)
    ensures ReadSnapshot(p, "current", s, Twice0(s).disk[s], Twice2(s).files[s]).content == "b\nc"
  {
    TwiceStarts(s);
    TwiceRewrites(s);
    TwiceDelta();
    TwiceTorn(s);
    TwiceRead(p, s);
  }
}
