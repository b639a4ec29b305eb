/** The output policy of the log viewer: a bounded tail of complete lines in
    which every credential-bearing entry is replaced by a placeholder. What the
    regular expressions and Unicode tables decide is a parameter (`Policy`). */
module Sanitize {
  import opened Shared

  const MAX_BYTES := 1024 * 1024
  const MAX_LINES := 20000
  const MAX_LINE := 4096
  const NEWLINE: byte := 10
  const ESCAPE: char := 0x1b as char
  const REDACTED: string := "[sensitive log entry hidden]"
  const OMITTED: string := "[long log entry omitted]"

  /** The PEM marker found in a line, with the two words it may contain. */
  datatype Marker = NoMarker | Marker(begins: bool, ends: bool)

  datatype Policy = Policy(
    decode: seq<byte> -> string,  // strings.ToValidUTF8
    strip: string -> string,      // terminal escape sequences removed
    format: char -> bool,         // the Unicode class Cf
    marker: string -> Marker,
    sensitive: string -> bool,
    encoded: string -> bool)

  datatype Outcome = Outcome(content: string, lines: nat, truncated: bool)

  // ------------------------------------------------------------------- UTF-8

  function EncodeChar(c: char): (b: seq<byte>)
    ensures 1 <= |b| <= 4
  {
    var v := c as int;
    if v < 0x80 then [v]
    else if v < 0x800 then [0xC0 + v / 64, 0x80 + v % 64]
    else if v < 0x1_0000 then [0xE0 + v / 4096, 0x80 + v / 64 % 64, 0x80 + v % 64]
    else [0xF0 + v / 0x4_0000, 0x80 + v / 4096 % 64, 0x80 + v / 64 % 64, 0x80 + v % 64]
  }

  /** The bytes of the first `n` characters. */
  function EncodeFirst(s: string, n: nat): seq<byte>
    requires n <= |s|
  {
    if n == 0 then [] else EncodeFirst(s, n - 1) + EncodeChar(s[n - 1])
  }

  function Encode(s: string): seq<byte> {
    EncodeFirst(s, |s|)
  }

  /** Length of the first `n` characters in bytes. */
  function Size(s: string, n: nat): nat
    requires n <= |s|
  {
    if n == 0 then 0 else Size(s, n - 1) + |EncodeChar(s[n - 1])|
  }

  /** Length of a string in bytes. */
  function Bytes(s: string): nat {
    Size(s, |s|)
  }

  lemma {:induction false} SizeIsLength(s: string, n: nat)
    requires n <= |s|
    ensures Size(s, n) == |EncodeFirst(s, n)| <= 4 * n
  {
    if n > 0 {
      SizeIsLength(s, n - 1);
    }
  }

  lemma {:induction false} EncodePrefix(a: string, b: string, n: nat)
    requires n <= |a|
    ensures EncodeFirst(a + b, n) == EncodeFirst(a, n) && Size(a + b, n) == Size(a, n)
  {
    if n > 0 {
      EncodePrefix(a, b, n - 1);
    }
  }

  // ---------------------------------------------------------- the characters

  predicate Control(c: char) {
    c as int < 0x20 || 0x7f <= c as int < 0xa0
  }

  predicate Allowed(p: Policy, c: char) {
    c == '\n' || c == '\t' || !(Control(c) || p.format(c))
  }

  predicate AllAllowed(p: Policy, s: string) {
    forall i :: 0 <= i < |s| ==> Allowed(p, s[i])
  }

  /** The allowed ones of the first `n` characters. */
  function Filter(p: Policy, s: string, n: nat): (r: string)
    requires n <= |s|
    ensures AllAllowed(p, r)
    ensures (forall i :: 0 <= i < n ==> Allowed(p, s[i])) ==> r == s[..n]
  {
    if n == 0 then []
    else
      var rest := Filter(p, s, n - 1);
      if Allowed(p, s[n - 1]) then rest + [s[n - 1]] else rest
  }

  /** Valid UTF-8 without escape sequences, control and format characters. */
  function Clean(p: Policy, data: seq<byte>): (t: string)
    ensures AllAllowed(p, t)
  {
    var text := p.decode(data);
    var stripped := if ESCAPE in text then p.strip(text) else text;
    Filter(p, stripped, |stripped|)
  }

  /** needsRuneFilter: some character is neither printable ASCII nor one of the
      two kept whitespace characters. */
  method NeedsRuneFilter(s: string) returns (needs: bool)
    ensures needs <==> exists c :: c in s && (c as int >= 0x7f || (c as int < 0x20 && c != '\n' && c != '\t'))
  {
    for i := 0 to |s|
      invariant forall c :: c in s[..i] ==> c as int < 0x7f && (c as int < 0x20 ==> c == '\n' || c == '\t')
    {
      var c := s[i];
      if c as int >= 0x7f || (c as int < 0x20 && c != '\n' && c != '\t') {
        assert c in s;
        return true;
      }
      assert s[..i + 1] == s[..i] + [c];
    }
    assert s[..|s|] == s;
    return false;
  }

  /** Text that skips the filter is text the filter keeps. */
  method CleanText(p: Policy, data: seq<byte>) returns (text: string)
    requires FormatHigh(p)
    ensures text == Clean(p, data)
  {
    text := p.decode(data);
    if ESCAPE in text {
      text := p.strip(text);
    }
    var needs := NeedsRuneFilter(text);
    if needs {
      var mapped := "";
      for i := 0 to |text|
        invariant mapped == Filter(p, text, i)
      {
        if Allowed(p, text[i]) {
          mapped := mapped + [text[i]];
        }
      }
      text := mapped;
    } else {
      assert AllAllowed(p, text) by {
        forall i | 0 <= i < |text| ensures Allowed(p, text[i]) {
          assert text[i] in text;
        }
      }
    }
  }

  // --------------------------------------------------------------- the lines

  /** Where the last newline of the first `n` characters is, or -1. */
  function LastNewline(t: string, n: nat): (i: int)
    requires n <= |t|
    ensures -1 <= i < n && (i >= 0 ==> t[i] == '\n')
    ensures forall k :: i < k < n ==> t[k] != '\n'
  {
    if n == 0 then -1 else if t[n - 1] == '\n' then n - 1 else LastNewline(t, n - 1)
  }

  /** The text before its last newline: an unfinished last entry is dropped. */
  function Complete(t: string): string {
    var i := LastNewline(t, |t|);
    if i < 0 then [] else t[..i]
  }

  /** It is what is before a newline that no other one follows. */
  lemma CompleteMeans(t: string)
    ensures '\n' !in t ==> Complete(t) == []
    ensures '\n' in t ==> exists rest :: '\n' !in rest && t == Complete(t) + ['\n'] + rest
  {
    if '\n' in t {
      var rest := t[LastNewline(t, |t|) + 1..];
      assert t == Complete(t) + ['\n'] + rest;
    }
  }

  predicate OneLine(s: string) {
    forall i :: 0 <= i < |s| ==> s[i] != '\n'
  }

  /** The lines of the first `n` characters. */
  function SplitFirst(t: string, n: nat): (lines: seq<string>)
    requires n <= |t|
    ensures |lines| >= 1 && forall k :: 0 <= k < |lines| ==> OneLine(lines[k])
  {
    if n == 0 then [[]]
    else
      var rest := SplitFirst(t, n - 1);
      var last := |rest| - 1;
      if t[n - 1] == '\n' then rest + [[]] else rest[..last] + [rest[last] + [t[n - 1]]]
  }

  function Split(t: string): (lines: seq<string>)
    ensures |lines| >= 1 && forall k :: 0 <= k < |lines| ==> OneLine(lines[k])
  {
    SplitFirst(t, |t|)
  }

  /** The first `n` lines with newlines between them. */
  function JoinFirst(lines: seq<string>, n: nat): string
    requires n <= |lines|
  {
    if n == 0 then []
    else if n == 1 then lines[0]
    else JoinFirst(lines, n - 1) + ['\n'] + lines[n - 1]
  }

  function Join(lines: seq<string>): string {
    JoinFirst(lines, |lines|)
  }

  lemma {:induction false} SplitPrefix(a: string, b: string, n: nat)
    requires n <= |a|
    ensures SplitFirst(a + b, n) == SplitFirst(a, n)
  {
    if n > 0 {
      SplitPrefix(a, b, n - 1);
    }
  }

  lemma {:induction false} JoinPrefix(a: seq<string>, b: seq<string>, n: nat)
    requires n <= |a|
    ensures JoinFirst(a + b, n) == JoinFirst(a, n)
  {
    if n > 0 {
      JoinPrefix(a, b, n - 1);
    }
  }

  lemma SplitNewline(t: string)
    ensures Split(t + ['\n']) == Split(t) + [[]]
  {
    SplitPrefix(t, ['\n'], |t|);
  }

  lemma SplitChar(t: string, c: char, lines: seq<string>, last: string)
    requires c != '\n' && Split(t) == lines + [last]
    ensures Split(t + [c]) == lines + [last + [c]]
  {
    SplitPrefix(t, [c], |t|);
    assert (lines + [last])[..|lines|] == lines;
  }

  lemma JoinSnoc(lines: seq<string>, last: string)
    ensures Join(lines + [last]) == if lines == [] then last else Join(lines) + ['\n'] + last
  {
    JoinPrefix(lines, [last], |lines|);
  }

  lemma GrowLast(lines: seq<string>, last: string, c: char)
    ensures Join(lines + [last + [c]]) == Join(lines + [last]) + [c]
  {
    JoinSnoc(lines, last);
    JoinSnoc(lines, last + [c]);
  }

  lemma EndLine(lines: seq<string>)
    requires lines != []
    ensures Join(lines + [[]]) == Join(lines) + ['\n']
  {
    JoinSnoc(lines, []);
  }

  /** Splitting loses nothing. */
  lemma {:induction false} JoinSplit(t: string, n: nat)
    requires n <= |t|
    ensures Join(SplitFirst(t, n)) == t[..n]
  {
    if n > 0 {
      JoinSplit(t, n - 1);
      var rest, c := SplitFirst(t, n - 1), t[n - 1];
      var last := |rest| - 1;
      if c == '\n' {
        EndLine(rest);
      } else {
        GrowLast(rest[..last], rest[last], c);
        assert rest[..last] + [rest[last]] == rest;
      }
      assert t[..n] == t[..n - 1] + [c];
    }
  }

  /** Joining loses nothing. */
  lemma {:induction false} SplitJoin(lines: seq<string>, last: string)
    requires (forall k :: 0 <= k < |lines| ==> OneLine(lines[k])) && OneLine(last)
    ensures Split(Join(lines + [last])) == lines + [last]
    decreases |lines|, |last|
  {
    if last != [] {
      var short, c := last[..|last| - 1], last[|last| - 1];
      SplitJoin(lines, short);
      GrowLast(lines, short, c);
      SplitChar(Join(lines + [short]), c, lines, short);
      assert last == short + [c];
    } else if lines != [] {
      var n := |lines| - 1;
      SplitJoin(lines[..n], lines[n]);
      assert lines[..n] + [lines[n]] == lines;
      EndLine(lines);
      SplitNewline(Join(lines));
    } else {
      JoinSnoc([], []);
    }
  }

  // ------------------------------------------------------------ the redaction

  /** inPEM before line `n`. */
  function InPem(p: Policy, lines: seq<string>, n: nat): bool
    requires n <= |lines|
  {
    if n == 0 then false else PemAfter(p.marker(lines[n - 1]), InPem(p, lines, n - 1))
  }

  function PemAfter(m: Marker, inPem: bool): bool {
    if m.NoMarker? then inPem else !m.ends && (m.begins || inPem)
  }

  predicate Hidden(p: Policy, line: string, inPem: bool) {
    inPem || p.marker(line).Marker? || p.sensitive(line) || p.encoded(line)
  }

  /** What is shown of line `i`. */
  function Shown(p: Policy, lines: seq<string>, i: nat): string
    requires i < |lines|
  {
    if Hidden(p, lines[i], InPem(p, lines, i)) then REDACTED
    else if Bytes(lines[i]) > MAX_LINE then OMITTED
    else lines[i]
  }

  function AllShown(p: Policy, lines: seq<string>): (r: seq<string>)
    ensures |r| == |lines|
  {
    seq(|lines|, i requires 0 <= i < |lines| => Shown(p, lines, i))
  }

  /** One of the first `n` lines is too long. */
  predicate AnyLong(lines: seq<string>, n: nat)
    requires n <= |lines|
  {
    n > 0 && (Bytes(lines[n - 1]) > MAX_LINE || AnyLong(lines, n - 1))
  }

  // --------------------------------------------------------------- the bounds

  /** Bytes of the lines from line `i` on, each with its newline. */
  function Weight(lines: seq<string>, i: nat): nat
    requires i <= |lines|
    decreases |lines| - i
  {
    if i == |lines| then 0 else Bytes(lines[i]) + 1 + Weight(lines, i + 1)
  }

  /** The longest tail from `low` on that fits starts at `start`. */
  predicate StartsTail(lines: seq<string>, low: nat, start: nat) {
    && low <= start <= |lines| && Weight(lines, start) <= MAX_BYTES
    && (start > low ==> Weight(lines, start - 1) > MAX_BYTES)
  }

  /** The oldest lines go until the rest fits. */
  function Start(lines: seq<string>, low: nat): (start: nat)
    requires low <= |lines|
    ensures StartsTail(lines, low, start)
    decreases |lines| - low
  {
    if Weight(lines, low) <= MAX_BYTES then low else Start(lines, low + 1)
  }

  /** The first of the newest 20000 of `n` lines. */
  function Newest(n: nat): nat {
    if n > MAX_LINES then n - MAX_LINES else 0
  }

  /** The first line that is returned. */
  function KeptFrom(p: Policy, lines: seq<string>): (from: nat)
    ensures StartsTail(AllShown(p, lines), Newest(|lines|), from)
  {
    Start(AllShown(p, lines), Newest(|lines|))
  }

  /** The lines that are returned. */
  function Kept(p: Policy, lines: seq<string>): (r: seq<string>)
    ensures |r| == |lines| - KeptFrom(p, lines)
  {
    AllShown(p, lines)[KeptFrom(p, lines)..]
  }

  function TrimPartialLine(data: seq<byte>): (r: seq<byte>)
    ensures |r| <= |data| && r == data[|data| - |r|..]
  {
    if data == [] then [] else if data[0] == NEWLINE then data[1..] else TrimPartialLine(data[1..])
  }

  /** What becomes of a text of complete lines. */
  function FromText(p: Policy, text: string, truncated: bool): Outcome {
    if text == [] then Outcome([], 0, truncated)
    else
      var lines := Split(text);
      var kept := Kept(p, lines);
      Outcome(Join(kept), |kept|, truncated || AnyLong(lines, |lines|) || |kept| < |lines|)
  }

  /** sanitizeTail as a function of its input. */
  function Sanitized(p: Policy, data: seq<byte>, truncated: bool): Outcome {
    FromText(p, Complete(Clean(p, if truncated then TrimPartialLine(data) else data)), truncated)
  }

  // ------------------------------------------------- what the input text becomes

  /** trimPartialLine cuts behind the first newline. */
  lemma {:induction false} TrimMeans(a: seq<byte>, b: seq<byte>)
    requires NEWLINE !in a
    ensures TrimPartialLine(a + [NEWLINE] + b) == b && TrimPartialLine(a) == []
  {
    var whole := a + [NEWLINE] + b;
    if a != [] {
      assert whole[1..] == a[1..] + [NEWLINE] + b && whole[0] == a[0];
      TrimMeans(a[1..], b);
    } else {
      assert whole[1..] == b;
    }
  }

  /** Of a truncated tail the first, partial line does not matter: whatever it
      is, the rest is shown as if it were the whole text, and marked as
      truncated. Without a whole line nothing is shown. */
  lemma PartialLineDropped(p: Policy, a: seq<byte>, b: seq<byte>)
    requires NEWLINE !in a
    ensures Sanitized(p, a + [NEWLINE] + b, true) == Sanitized(p, b, false).(truncated := true)
    ensures Lawful(p) ==> Sanitized(p, a, true) == Outcome("", 0, true)
  {
    TrimMeans(a, b);
    if Lawful(p) {
      assert Encode("") == [] && p.decode(Encode("")) == "";
    }
  }

  /** The filter takes exactly the characters that are not allowed. */
  lemma {:induction false} FilterJoins(p: Policy, a: string, b: string, n: nat)
    requires n <= |b|
    ensures Filter(p, a + b, |a| + n) == Filter(p, a, |a|) + Filter(p, b, n)
  {
    if n == 0 {
      FilterPrefix(p, a, b, |a|);
    } else {
      FilterJoins(p, a, b, n - 1);
    }
  }

  lemma {:induction false} FilterPrefix(p: Policy, a: string, b: string, n: nat)
    requires n <= |a|
    ensures Filter(p, a + b, n) == Filter(p, a, n)
  {
    if n > 0 {
      FilterPrefix(p, a, b, n - 1);
    }
  }

  /** A character that is not allowed has no effect, and one that is allowed
      stays where it is. */
  lemma FilterExactly(p: Policy, a: string, c: char, b: string)
    ensures var all := a + [c] + b;
      Filter(p, all, |all|) == Filter(p, a, |a|) + (if Allowed(p, c) then [c] else []) + Filter(p, b, |b|)
  {
    var ac := a + [c];
    FilterJoins(p, ac, b, |b|);
    FilterJoins(p, a, [c], 1);
    FilterOne(p, c);
    assert Filter(p, ac, |ac|) == Filter(p, a, |a|) + (if Allowed(p, c) then [c] else []);
  }

  lemma FilterOne(p: Policy, c: char)
    ensures Filter(p, [c], 1) == if Allowed(p, c) then [c] else []
  {
    assert Filter(p, [c], 0) == [];
  }

  /** Escape sequences have no effect: the text is shown as without them. */
  lemma EscapesGone(p: Policy, data: seq<byte>)
    requires Lawful(p) && ESCAPE in p.decode(data) && ESCAPE !in p.strip(p.decode(data))
    ensures Sanitized(p, data, false) == Sanitized(p, Encode(p.strip(p.decode(data))), false)
  {
  }

  lemma {:induction false} AnyLongMeans(lines: seq<string>, n: nat)
    requires n <= |lines|
    ensures AnyLong(lines, n) <==> exists i :: 0 <= i < n && Bytes(lines[i]) > MAX_LINE
  {
    if n > 0 {
      AnyLongMeans(lines, n - 1);
    }
  }

  /** The output is marked as truncated exactly when the input was, a line is too
      long, or lines were dropped; and it counts its lines. */
  lemma FlagExactly(p: Policy, text: string, truncated: bool)
    requires text != []
    ensures var lines, o := Split(text), FromText(p, text, truncated);
      && o.lines == |Kept(p, lines)| && o.content == Join(Kept(p, lines))
      && (o.truncated <==> truncated || o.lines < |lines| || exists i :: 0 <= i < |lines| && Bytes(lines[i]) > MAX_LINE)
  {
    AnyLongMeans(Split(text), |Split(text)|);
  }

  // ----------------------------------------------------------- sanitizeTail

  method SanitizeTail(p: Policy, data: seq<byte>, truncated: bool) returns (content: string, count: nat, clipped: bool)
    requires FormatHigh(p)
    ensures Outcome(content, count, clipped) == Sanitized(p, data, truncated)
  {
    clipped := truncated;
    var text := CleanText(p, if truncated then TrimPartialLine(data) else data);
    text := Complete(text);
    if text == "" {
      return "", 0, clipped;
    }
    var lines, cut := SanitizeLines(p, Split(text));
    return Join(lines), |lines|, clipped || cut;
  }

  /** From the lines of a text to the lines that are returned. */
  method SanitizeLines(p: Policy, input: seq<string>) returns (lines: seq<string>, clipped: bool)
    ensures lines == Kept(p, input) && clipped == (AnyLong(input, |input|) || |lines| < |input|)
  {
    lines, clipped := Redact(p, input);
    ghost var shown, low := lines, Newest(|input|);
    if |lines| > MAX_LINES {
      lines := lines[|lines| - MAX_LINES..];
      clipped := true;
    }
    var start := TailStart(lines);
    if start > 0 {
      clipped := true;
    }
    assert lines == shown[low..];
    TailOfSlice(shown, low, start);
    lines := lines[start..];
  }

  /** The loop over the lines, with inPEM as its state. */
  method Redact(p: Policy, input: seq<string>) returns (lines: seq<string>, long: bool)
    ensures lines == AllShown(p, input) && long == AnyLong(input, |input|)
  {
    lines, long := input, false;
    var inPem := false;
    for i := 0 to |input|
      invariant |lines| == |input| && inPem == InPem(p, input, i)
      invariant forall k :: 0 <= k < i ==> lines[k] == Shown(p, input, k)
      invariant forall k :: i <= k < |input| ==> lines[k] == input[k]
      invariant long == AnyLong(input, i)
    {
      var line := lines[i];
      var marker := p.marker(line);
      var hidden := inPem || marker != NoMarker || p.sensitive(line) || p.encoded(line);
      if marker.Marker? && marker.begins {
        inPem := true;
      }
      if marker.Marker? && marker.ends {
        inPem := false;
      }
      if Bytes(line) > MAX_LINE {
        long := true;
      }
      if hidden {
        lines := lines[i := REDACTED];
      } else if Bytes(line) > MAX_LINE {
        lines := lines[i := OMITTED];
      }
    }
  }

  /** The loop backwards over the lines finds where the tail starts. */
  method TailStart(lines: seq<string>) returns (start: nat)
    ensures StartsTail(lines, 0, start)
  {
    var bytes := 0;
    start := |lines|;
    while start > 0 && bytes + Bytes(lines[start - 1]) + 1 <= MAX_BYTES
      invariant start <= |lines| && bytes == Weight(lines, start) && bytes <= MAX_BYTES
    {
      start := start - 1;
      bytes := bytes + Bytes(lines[start]) + 1;
    }
  }

  lemma {:induction false} WeightFalls(lines: seq<string>, i: nat, j: nat)
    requires i <= j <= |lines|
    ensures Weight(lines, j) <= Weight(lines, i)
    decreases j - i
  {
    if i < j {
      WeightFalls(lines, i + 1, j);
    }
  }

  /** Only one start is both low enough and no lower than needed. */
  lemma OneStart(lines: seq<string>, low: nat, a: nat, b: nat)
    requires StartsTail(lines, low, a) && StartsTail(lines, low, b)
    ensures a == b
  {
    if a < b {
      WeightFalls(lines, a, b - 1);
    } else if b < a {
      WeightFalls(lines, b, a - 1);
    }
  }

  lemma {:induction false} WeightOfSlice(lines: seq<string>, low: nat, k: nat)
    requires low + k <= |lines|
    ensures Weight(lines[low..], k) == Weight(lines, low + k)
    decreases |lines| - k
  {
    if low + k < |lines| {
      assert lines[low..][k] == lines[low + k];
      WeightOfSlice(lines, low, k + 1);
    }
  }

  lemma TailOfSlice(lines: seq<string>, low: nat, start: nat)
    requires low <= |lines| && StartsTail(lines[low..], 0, start)
    ensures Start(lines, low) == low + start && lines[low..][start..] == lines[low + start..]
  {
    SliceOfSlice(lines, low, start);
    StartOfSlice(lines, low, start);
  }

  lemma SliceOfSlice<T>(s: seq<T>, a: nat, b: nat)
    requires a + b <= |s|
    ensures s[a..][b..] == s[a + b..]
  {
  }

  lemma {:induction false} StartOfSlice(lines: seq<string>, low: nat, start: nat)
    requires low <= |lines| && StartsTail(lines[low..], 0, start)
    ensures Start(lines, low) == low + start
  {
    WeightOfSlice(lines, low, start);
    if start > 0 {
      WeightOfSlice(lines, low, start - 1);
    }
    OneStart(lines, low, low + start, Start(lines, low));
  }

  // ------------------------------------------------------ what is assumed

  /** Format characters are not ASCII. */
  ghost predicate FormatHigh(p: Policy) {
    forall c: char :: p.format(c) ==> c as int >= 0x80
  }

  ghost predicate Plain(p: Policy, line: string) {
    p.marker(line).NoMarker? && !p.sensitive(line) && !p.encoded(line)
  }

  /** Decoding undoes encoding, format characters are not ASCII, and the
      placeholders are no sensitive entries themselves. */
  ghost predicate Lawful(p: Policy) {
    && (forall s: string :: p.decode(Encode(s)) == s)
    && FormatHigh(p)
    && Plain(p, REDACTED) && Plain(p, OMITTED)
  }

  predicate Continuation(b: byte) { 0x80 <= b < 0xC0 }

  /** A character's bytes after the first are continuation bytes, the first is
      not, and the bytes determine the character. */
  lemma CharShape(c: char)
    ensures var e := EncodeChar(c);
      !Continuation(e[0]) && forall i :: 0 < i < |e| ==> Continuation(e[i])
  {
  }

  /** The number of a character, taken out of its bytes. */
  function CharValue(e: seq<byte>): int
    requires 1 <= |e| <= 4
  {
    var first: int := e[0];
    if |e| == 1 then first
    else
      var second: int := e[1];
      if |e| == 2 then (first - 0xC0) * 64 + (second - 0x80)
      else
        var third: int := e[2];
        if |e| == 3 then (first - 0xE0) * 4096 + (second - 0x80) * 64 + (third - 0x80)
        else
          var fourth: int := e[3];
          (first - 0xF0) * 0x4_0000 + (second - 0x80) * 4096 + (third - 0x80) * 64 + (fourth - 0x80)
  }

  lemma SixBits(v: nat)
    ensures v == v / 64 * 64 + v % 64 && v / 64 == v / 4096 * 64 + v / 64 % 64
        && v / 4096 == v / 0x4_0000 * 64 + v / 4096 % 64
  {
  }

  lemma CharRound(c: char)
    ensures CharValue(EncodeChar(c)) == c as int
  {
    SixBits(c as int);
  }

  /** Everything behind the first byte of the last character continues it. */
  lemma Ending(a: seq<byte>, c: char)
    ensures var whole := a + EncodeChar(c);
      !Continuation(whole[|a|]) && forall i :: |a| < i < |whole| ==> Continuation(whole[i])
  {
    CharShape(c);
  }

  /** Equal sequences that end with a character each end with the same one. */
  lemma SameLast(a: seq<byte>, c: char, b: seq<byte>, d: char)
    requires a + EncodeChar(c) == b + EncodeChar(d)
    ensures a == b && c == d
  {
    var whole := a + EncodeChar(c);
    Ending(a, c);
    Ending(b, d);
    assert |a| == |b|;
    assert whole[..|a|] == a && whole[..|b|] == b;
    assert whole[|a|..] == EncodeChar(c) && whole[|b|..] == EncodeChar(d);
    CharRound(c);
    CharRound(d);
  }

  /** UTF-8 is injective: what is assumed of the decoder is possible. */
  lemma {:induction false} EncodeInjective(s: string, t: string, n: nat, m: nat)
    requires n <= |s| && m <= |t| && EncodeFirst(s, n) == EncodeFirst(t, m)
    ensures s[..n] == t[..m]
    decreases n
  {
    SizeIsLength(s, n);
    SizeIsLength(t, m);
    if n > 0 && m > 0 {
      SameLast(EncodeFirst(s, n - 1), s[n - 1], EncodeFirst(t, m - 1), t[m - 1]);
      EncodeInjective(s, t, n - 1, m - 1);
      assert s[..n] == s[..n - 1] + [s[n - 1]] && t[..m] == t[..m - 1] + [t[m - 1]];
    }
  }

  /** A decoder: the text whose encoding the bytes are, if there is one. */
  ghost function Decoded(b: seq<byte>): string {
    if s :| Encode(s) == b then s else ""
  }

  /** The assumptions hold of some policy. */
  lemma LawfulPossible(sensitive: string -> bool)
    requires !sensitive(REDACTED) && !sensitive(OMITTED)
    ensures exists p: Policy :: Lawful(p) && p.sensitive == sensitive
  {
    ghost var p := Policy(b => Decoded(b), s => s, c => false, s => NoMarker, sensitive, s => false);
    forall s: string ensures p.decode(Encode(s)) == s {
      var t := Decoded(Encode(s));
      assert Encode(t) == Encode(s);
      EncodeInjective(s, t, |s|, |t|);
      assert s[..|s|] == s && t[..|t|] == t;
    }
    assert Lawful(p);
  }

  // ---------------------------------------------------------- nothing leaks

  /** A block that begins in line `j` is still open at line `i`. */
  ghost predicate OpenFrom(p: Policy, lines: seq<string>, j: nat, i: nat)
    requires i <= |lines|
  {
    && j < i && p.marker(lines[j]).Marker? && p.marker(lines[j]).begins && !p.marker(lines[j]).ends
    && forall k :: j < k < i ==> !(p.marker(lines[k]).Marker? && p.marker(lines[k]).ends)
  }

  /** The loop's flag is right: it is set exactly inside an open PEM block. */
  lemma {:induction false} InPemExact(p: Policy, lines: seq<string>, i: nat)
    requires i <= |lines|
    ensures InPem(p, lines, i) <==> exists j: nat :: OpenFrom(p, lines, j, i)
    decreases i
  {
    if i > 0 {
      InPemExact(p, lines, i - 1);
      var m := p.marker(lines[i - 1]);
      if InPem(p, lines, i) {
        if m.Marker? && m.begins {
          assert OpenFrom(p, lines, i - 1, i);
        } else {
          var j: nat :| OpenFrom(p, lines, j, i - 1);
          assert OpenFrom(p, lines, j, i);
        }
      }
      if j: nat :| OpenFrom(p, lines, j, i) {
        if j < i - 1 {
          assert OpenFrom(p, lines, j, i - 1);
        }
      }
    }
  }

  /** The input line that the k-th line of the output stands for. */
  function Origin(p: Policy, lines: seq<string>, k: nat): (i: nat)
    requires k < |Kept(p, lines)|
    ensures i < |lines| && Kept(p, lines)[k] == Shown(p, lines, i)
  {
    var i := KeptFrom(p, lines) + k;
    assert AllShown(p, lines)[i] == Shown(p, lines, i);
    i
  }

  /** Every output line is a placeholder, or an input line that is short, is
      not sensitive, is no PEM marker and no encoded key and is outside every
      PEM block. */
  lemma NothingLeaks(p: Policy, lines: seq<string>, k: nat)
    requires k < |Kept(p, lines)|
    ensures var line, i := Kept(p, lines)[k], Origin(p, lines, k);
      line in {REDACTED, OMITTED} || (
        && line == lines[i] && Bytes(line) <= MAX_LINE && Plain(p, line)
        && !exists j: nat :: OpenFrom(p, lines, j, i))
  {
    InPemExact(p, lines, Origin(p, lines, k));
  }

  /** Nor does it hide more: exactly these lines are replaced. */
  lemma HidesExactly(p: Policy, lines: seq<string>, k: nat)
    requires k < |Kept(p, lines)|
    ensures var i := Origin(p, lines, k);
      var hidden := !Plain(p, lines[i]) || exists j: nat :: OpenFrom(p, lines, j, i);
      Kept(p, lines)[k] == if hidden then REDACTED else if Bytes(lines[i]) > MAX_LINE then OMITTED else lines[i]
  {
    InPemExact(p, lines, Origin(p, lines, k));
  }

  /** The output has at most 20000 lines and less than a MiB, and it is the
      longest tail that stays within both bounds. */
  lemma Bounded(p: Policy, lines: seq<string>)
    ensures var kept, shown, from := Kept(p, lines), AllShown(p, lines), KeptFrom(p, lines);
      && |kept| <= MAX_LINES && Weight(kept, 0) <= MAX_BYTES
      && from <= |lines| && kept == shown[from..]
      && (from > 0 ==> |kept| == MAX_LINES || Weight(shown, from - 1) > MAX_BYTES)
  {
    TailWeight(AllShown(p, lines), Newest(|lines|), KeptFrom(p, lines));
  }

  lemma TailWeight(lines: seq<string>, low: nat, from: nat)
    requires StartsTail(lines, low, from)
    ensures Weight(lines[from..], 0) <= MAX_BYTES
  {
    WeightOfSlice(lines, from, 0);
  }

  // -------------------------------------------------------------- reading back

  /** Lines that the policy leaves alone. */
  ghost predicate Settled(p: Policy, kept: seq<string>) {
    && |kept| <= MAX_LINES && Weight(kept, 0) <= MAX_BYTES && kept != [[]]
    && forall k :: 0 <= k < |kept| ==> SettledLine(p, kept[k])
  }

  ghost predicate SettledLine(p: Policy, line: string) {
    OneLine(line) && AllAllowed(p, line) && Plain(p, line) && Bytes(line) <= MAX_LINE
  }

  lemma PlaceholdersSettled(p: Policy)
    requires Lawful(p)
    ensures SettledLine(p, REDACTED) && SettledLine(p, OMITTED)
  {
    Printable(p, REDACTED);
    Printable(p, OMITTED);
  }

  lemma Printable(p: Policy, s: string)
    requires FormatHigh(p) && |s| <= 1000
    requires forall i :: 0 <= i < |s| ==> 0x20 <= s[i] as int < 0x7f
    ensures OneLine(s) && AllAllowed(p, s) && Bytes(s) <= MAX_LINE
  {
    SizeIsLength(s, |s|);
  }

  lemma {:induction false} PartsAllowed(p: Policy, lines: seq<string>, n: nat, k: nat)
    requires k < n <= |lines| && AllAllowed(p, JoinFirst(lines, n))
    ensures AllAllowed(p, lines[k])
  {
    if n > 1 {
      var t, a, b := JoinFirst(lines, n), JoinFirst(lines, n - 1), lines[n - 1];
      if k < n - 1 {
        assert forall i :: 0 <= i < |a| ==> a[i] == t[i];
        PartsAllowed(p, lines, n - 1, k);
      } else {
        forall i | 0 <= i < |b| ensures Allowed(p, b[i]) {
          assert b[i] == t[|a| + 1 + i];
        }
      }
    }
  }

  lemma {:induction false} JoinAllowed(p: Policy, lines: seq<string>, n: nat)
    requires n <= |lines| && forall k :: 0 <= k < |lines| ==> AllAllowed(p, lines[k])
    ensures AllAllowed(p, JoinFirst(lines, n))
  {
    if n > 1 {
      JoinAllowed(p, lines, n - 1);
    }
  }

  lemma JoinEmpty(lines: seq<string>)
    ensures Join(lines) == [] <==> lines == [] || lines == [[]]
  {
  }

  lemma WholeText(t: string)
    ensures Complete(t + ['\n']) == t
  {
    assert (t + ['\n'])[..|t|] == t;
  }

  /** What sanitizeTail returns is settled. */
  lemma KeptSettled(p: Policy, text: string)
    requires Lawful(p) && AllAllowed(p, text) && text != []
    ensures Settled(p, Kept(p, Split(text)))
  {
    var lines := Split(text);
    JoinSplit(text, |text|);
    assert text[..|text|] == text;
    forall k | 0 <= k < |Kept(p, lines)| ensures SettledLine(p, Kept(p, lines)[k]) {
      ShownSettled(p, lines, Origin(p, lines, k));
    }
    Bounded(p, lines);
    NotOneEmptyLine(p, lines);
  }

  lemma ShownSettled(p: Policy, lines: seq<string>, i: nat)
    requires Lawful(p) && i < |lines| && OneLine(lines[i]) && AllAllowed(p, Join(lines))
    ensures SettledLine(p, Shown(p, lines, i))
  {
    PlaceholdersSettled(p);
    PartsAllowed(p, lines, |lines|, i);
  }

  lemma ShownShort(p: Policy, lines: seq<string>, i: nat)
    requires i < |lines|
    ensures Bytes(AllShown(p, lines)[i]) <= MAX_LINE
  {
    SizeIsLength(REDACTED, |REDACTED|);
    SizeIsLength(OMITTED, |OMITTED|);
  }

  /** At least two short lines are left, if there are two. */
  lemma TwoFit(lines: seq<string>, low: nat, from: nat)
    requires StartsTail(lines, low, from) && low + 2 <= |lines|
    requires Bytes(lines[|lines| - 1]) <= MAX_LINE && Bytes(lines[|lines| - 2]) <= MAX_LINE
    ensures from + 2 <= |lines|
  {
    var n := |lines|;
    assert Weight(lines, n) == 0;
    assert Weight(lines, n - 1) <= MAX_LINE + 1;
    assert Weight(lines, n - 2) <= MAX_BYTES;
    var before := if from == n then n - 1 else n - 2;
    WeightFalls(lines, n - 2, before);
  }

  lemma ManyLeft(p: Policy, lines: seq<string>)
    requires |lines| >= 2
    ensures |Kept(p, lines)| >= 2
  {
    ShownShort(p, lines, |lines| - 1);
    ShownShort(p, lines, |lines| - 2);
    TwoFit(AllShown(p, lines), Newest(|lines|), KeptFrom(p, lines));
  }

  /** One empty line alone is never what is left. */
  lemma NotOneEmptyLine(p: Policy, lines: seq<string>)
    requires lines != [[]] && lines != []
    ensures Kept(p, lines) != [[]]
  {
    Bounded(p, lines);
    if |lines| >= 2 {
      ManyLeft(p, lines);
    } else {
      assert Shown(p, lines, 0) != [];
    }
  }

  lemma {:induction false} FromZero(p: Policy, kept: seq<string>)
    requires AllShown(p, kept) == kept && |kept| <= MAX_LINES && Weight(kept, 0) <= MAX_BYTES
    ensures KeptFrom(p, kept) == 0 && Kept(p, kept) == kept
  {
    OneStart(kept, 0, 0, KeptFrom(p, kept));
  }

  /** The policy leaves settled lines alone. */
  lemma {:induction false} SettledFixed(p: Policy, kept: seq<string>)
    requires Lawful(p) && Settled(p, kept) && kept != []
    ensures AllShown(p, kept) == kept && !AnyLong(kept, |kept|) && Kept(p, kept) == kept
  {
    forall i | 0 <= i < |kept| ensures Shown(p, kept, i) == kept[i] {
      NoPem(p, kept, i);
    }
    NoLong(p, kept, |kept|);
    assert AllShown(p, kept) == kept;
    FromZero(p, kept);
  }

  lemma {:induction false} NoLong(p: Policy, kept: seq<string>, i: nat)
    requires i <= |kept| && forall k :: 0 <= k < |kept| ==> SettledLine(p, kept[k])
    ensures !AnyLong(kept, i)
    decreases i
  {
    if i > 0 {
      NoLong(p, kept, i - 1);
    }
  }

  lemma {:induction false} NoPem(p: Policy, kept: seq<string>, i: nat)
    requires i <= |kept| && forall k :: 0 <= k < |kept| ==> SettledLine(p, kept[k])
    ensures !InPem(p, kept, i)
    decreases i
  {
    if i > 0 {
      NoPem(p, kept, i - 1);
    }
  }

  lemma CleanAgain(p: Policy, t: string)
    requires Lawful(p) && AllAllowed(p, t)
    ensures Clean(p, Encode(t) + [NEWLINE]) == t + ['\n']
  {
    var s := t + ['\n'];
    EncodePrefix(t, ['\n'], |t|);
    assert EncodeChar('\n') == [NEWLINE];
    assert Encode(s) == Encode(t) + [NEWLINE];
    assert AllAllowed(p, s) && s[..|s|] == s;
    forall i | 0 <= i < |s| ensures s[i] != ESCAPE {
      assert Allowed(p, s[i]);
    }
  }

  lemma SettledText(p: Policy, kept: seq<string>)
    requires Lawful(p) && Settled(p, kept)
    ensures FromText(p, Join(kept), false) == Outcome(Join(kept), |kept|, false)
  {
    JoinEmpty(kept);
    if kept != [] {
      SplitJoin(kept[..|kept| - 1], kept[|kept| - 1]);
      assert kept[..|kept| - 1] + [kept[|kept| - 1]] == kept;
      SettledFixed(p, kept);
    }
  }

  /** Settled lines are read back exactly. */
  lemma SettledRead(p: Policy, kept: seq<string>)
    requires Lawful(p) && Settled(p, kept)
    ensures Sanitized(p, Encode(Join(kept)) + [NEWLINE], false) == Outcome(Join(kept), |kept|, false)
  {
    JoinAllowed(p, kept, |kept|);
    CleanAgain(p, Join(kept));
    WholeText(Join(kept));
    SettledText(p, kept);
  }

  /** sanitizeTail is idempotent: its own output with a newline gives the same
      content and line count, and nothing more is clipped. */
  lemma Idempotent(p: Policy, data: seq<byte>, truncated: bool)
    requires Lawful(p)
    ensures var once := Sanitized(p, data, truncated);
      Sanitized(p, Encode(once.content) + [NEWLINE], false) == once.(truncated := false)
  {
    var clean := Clean(p, if truncated then TrimPartialLine(data) else data);
    var text := Complete(clean);
    assert AllAllowed(p, text);
    var kept := if text == [] then [] else Kept(p, Split(text));
    if text != [] {
      KeptSettled(p, text);
    }
    assert Sanitized(p, data, truncated).content == Join(kept);
    SettledRead(p, kept);
  }

  /** No terminal can be driven by what is shown: of the control characters only
      newlines and tabs are left, and no format character. */
  lemma NothingControls(p: Policy, data: seq<byte>, truncated: bool, c: char)
    requires Lawful(p) && c in Sanitized(p, data, truncated).content
    ensures c == '\n' || c == '\t' || 0x20 <= c as int < 0x7f || (c as int >= 0xa0 && !p.format(c))
  {
    var text := Complete(Clean(p, if truncated then TrimPartialLine(data) else data));
    if text != [] {
      var kept := Kept(p, Split(text));
      KeptSettled(p, text);
      JoinAllowed(p, kept, |kept|);
      var content := Join(kept);
      var i :| 0 <= i < |content| && content[i] == c;
      assert Allowed(p, content[i]);
    }
  }

  lemma {:induction false} JoinWeight(lines: seq<string>, n: nat)
    requires 0 < n <= |lines|
    ensures Bytes(JoinFirst(lines, n)) + 1 + Weight(lines, n) == Weight(lines, 0)
  {
    if n > 1 {
      JoinWeight(lines, n - 1);
      var a, b := JoinFirst(lines, n - 1), lines[n - 1];
      BytesSum(a, ['\n'], 1);
      BytesSum(a + ['\n'], b, |b|);
      assert Size(['\n'], 0) == 0 && Size(['\n'], 1) == 1;
    }
  }

  lemma {:induction false} BytesSum(a: string, b: string, n: nat)
    requires n <= |b|
    ensures Size(a + b, |a| + n) == Bytes(a) + Size(b, n)
  {
    if n == 0 {
      EncodePrefix(a, b, |a|);
    } else {
      BytesSum(a, b, n - 1);
      assert (a + b)[|a| + n - 1] == b[n - 1];
    }
  }

  /** What the archive must store: the content is shorter than a MiB. */
  lemma ContentBound(p: Policy, data: seq<byte>, truncated: bool)
    ensures Bytes(Sanitized(p, data, truncated).content) < MAX_BYTES
  {
    var text := Complete(Clean(p, if truncated then TrimPartialLine(data) else data));
    if text != [] {
      var kept := Kept(p, Split(text));
      Bounded(p, Split(text));
      if kept != [] {
        JoinWeight(kept, |kept|);
      }
    }
  }
}
