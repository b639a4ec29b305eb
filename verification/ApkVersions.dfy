/** The comparison of APK versions on the device, and its agreement with the
    order in which the package repository sorts releases. */
module ApkVersions {
  import opened Shared
  import opened Releases

  const LIMIT := 0x8000_0000_0000_0000

  datatype Suffix = Suffix(rank: int, number: nat)

  datatype Parsed = Parsed(numbers: seq<nat>, letter: nat, suffixes: seq<Suffix>, release: nat)

  const NONE := Suffix(0, 0)

  // -------------------------------------------------------------- the comparison

  function CompareNumbers(a: seq<nat>, b: seq<nat>, i: nat): int
    requires i <= |a| || i <= |b|
    decreases |a| + |b| - i
  {
    if i >= |a| && i >= |b| then 0
    else if i >= |a| then -1
    else if i >= |b| then 1
    else First(Sign(a[i], b[i]), CompareNumbers(a, b, i + 1))
  }

  function SuffixAt(a: seq<Suffix>, i: nat): Suffix {
    if i < |a| then a[i] else NONE
  }

  function CompareSuffix(a: Suffix, b: Suffix): int {
    First(Sign(a.rank, b.rank), Sign(a.number, b.number))
  }

  /** The suffixes from the i-th on; a missing one is as no suffix. */
  function CompareSuffixes(a: seq<Suffix>, b: seq<Suffix>, i: nat): int
    decreases |a| + |b| - i
  {
    if i >= |a| && i >= |b| then 0
    else First(CompareSuffix(SuffixAt(a, i), SuffixAt(b, i)), CompareSuffixes(a, b, i + 1))
  }

  function Compare(p: Parsed, q: Parsed): int {
    First(CompareNumbers(p.numbers, q.numbers, 0),
          First(Sign(p.letter, q.letter), First(CompareSuffixes(p.suffixes, q.suffixes, 0),
                                                Sign(p.release, q.release))))
  }

  /** compareAPKVersions for two versions that parse. */
  method CompareParsed(p: Parsed, q: Parsed) returns (c: int)
    ensures c == Compare(p, q)
  {
    var i := 0;
    while i < |p.numbers| || i < |q.numbers|
      invariant i <= |p.numbers| || i <= |q.numbers|
      invariant CompareNumbers(p.numbers, q.numbers, 0) == CompareNumbers(p.numbers, q.numbers, i)
      decreases |p.numbers| + |q.numbers| - i
    {
      if i >= |p.numbers| {
        return -1;
      }
      if i >= |q.numbers| {
        return 1;
      }
      c := Sign(p.numbers[i], q.numbers[i]);
      if c != 0 {
        return;
      }
      i := i + 1;
    }
    if p.letter != q.letter {
      return Sign(p.letter, q.letter);
    }
    i := 0;
    while i < |p.suffixes| || i < |q.suffixes|
      invariant CompareSuffixes(p.suffixes, q.suffixes, 0) == CompareSuffixes(p.suffixes, q.suffixes, i)
      decreases |p.suffixes| + |q.suffixes| - i
    {
      var a, b := NONE, NONE;
      if i < |p.suffixes| {
        a := p.suffixes[i];
      }
      if i < |q.suffixes| {
        b := q.suffixes[i];
      }
      c := Sign(a.rank, b.rank);
      if c != 0 {
        return;
      }
      c := Sign(a.number, b.number);
      if c != 0 {
        return;
      }
      i := i + 1;
    }
    return Sign(p.release, q.release);
  }

  // ----------------------------------------------------------- a total preorder

  /** How the signs of a comparison of a with b and of b with c bound the sign
      of that of a with c. */
  predicate Chained(ab: int, bc: int, ac: int) {
    (ab <= 0 && bc <= 0 ==> ac <= 0) && (ab <= 0 && bc <= 0 && (ab < 0 || bc < 0) ==> ac < 0)
  }

  lemma {:induction false} NumbersOrder(a: seq<nat>, b: seq<nat>, c: seq<nat>, i: nat)
    requires (i <= |a| || i <= |b|) && (i <= |b| || i <= |c|) && (i <= |a| || i <= |c|)
    ensures CompareNumbers(b, a, i) == -CompareNumbers(a, b, i)
    ensures Chained(CompareNumbers(a, b, i), CompareNumbers(b, c, i), CompareNumbers(a, c, i))
    decreases |a| + |b| + |c| - i
  {
    if i < |a| && i < |b| {
      if i < |c| {
        NumbersOrder(a, b, c, i + 1);
      } else {
        NumbersOpposite(a, b, i);
      }
    }
  }

  lemma {:induction false} NumbersOpposite(a: seq<nat>, b: seq<nat>, i: nat)
    requires i <= |a| || i <= |b|
    ensures CompareNumbers(b, a, i) == -CompareNumbers(a, b, i)
    decreases |a| + |b| - i
  {
    if i < |a| && i < |b| {
      NumbersOpposite(a, b, i + 1);
    }
  }

  lemma {:induction false} SuffixesOpposite(a: seq<Suffix>, b: seq<Suffix>, i: nat)
    ensures CompareSuffixes(b, a, i) == -CompareSuffixes(a, b, i)
    decreases |a| + |b| - i
  {
    if i < |a| || i < |b| {
      SuffixesOpposite(a, b, i + 1);
    }
  }

  /** Unrolling past the end changes nothing. */
  lemma SuffixesUnroll(a: seq<Suffix>, b: seq<Suffix>, i: nat)
    ensures CompareSuffixes(a, b, i)
        == First(CompareSuffix(SuffixAt(a, i), SuffixAt(b, i)), CompareSuffixes(a, b, i + 1))
  {
  }

  lemma {:induction false} SuffixesChained(a: seq<Suffix>, b: seq<Suffix>, c: seq<Suffix>, i: nat)
    ensures Chained(CompareSuffixes(a, b, i), CompareSuffixes(b, c, i), CompareSuffixes(a, c, i))
    decreases |a| + |b| + |c| - i
  {
    if i < |a| || i < |b| || i < |c| {
      SuffixesChained(a, b, c, i + 1);
      SuffixesUnroll(a, b, i);
      SuffixesUnroll(b, c, i);
      SuffixesUnroll(a, c, i);
    }
  }

  /** compareAPKVersions is a total preorder on the versions that parse. */
  lemma TotalPreorder(p: Parsed, q: Parsed, r: Parsed)
    ensures Compare(p, p) == 0 && Compare(q, p) == -Compare(p, q) && Compare(p, q) in {-1, 0, 1}
    ensures Chained(Compare(p, q), Compare(q, r), Compare(p, r))
  {
    SignsOnly(p, q);
    NumbersOpposite(p.numbers, p.numbers, 0);
    SuffixesOpposite(p.suffixes, p.suffixes, 0);
    NumbersOpposite(p.numbers, q.numbers, 0);
    SuffixesOpposite(p.suffixes, q.suffixes, 0);
    NumbersOrder(p.numbers, q.numbers, r.numbers, 0);
    SuffixesChained(p.suffixes, q.suffixes, r.suffixes, 0);
  }

  lemma SignsOnly(p: Parsed, q: Parsed)
    ensures Compare(p, q) in {-1, 0, 1}
  {
    NumbersSign(p.numbers, q.numbers, 0);
    SuffixesSign(p.suffixes, q.suffixes, 0);
  }

  lemma {:induction false} NumbersSign(a: seq<nat>, b: seq<nat>, i: nat)
    requires i <= |a| || i <= |b|
    ensures CompareNumbers(a, b, i) in {-1, 0, 1}
    decreases |a| + |b| - i
  {
    if i < |a| && i < |b| {
      NumbersSign(a, b, i + 1);
    }
  }

  lemma {:induction false} SuffixesSign(a: seq<Suffix>, b: seq<Suffix>, i: nat)
    ensures CompareSuffixes(a, b, i) in {-1, 0, 1}
    decreases |a| + |b| - i
  {
    if i < |a| || i < |b| {
      SuffixesSign(a, b, i + 1);
    }
  }

  /** Two versions that parse are equal for it only if they are the same. */
  lemma EqualOnlySame(p: Parsed, q: Parsed)
    requires forall s :: s in p.suffixes || s in q.suffixes ==> s.rank != 0
    ensures Compare(p, q) == 0 <==> p == q
  {
    if Compare(p, q) == 0 {
      NumbersSame(p.numbers, q.numbers, 0);
      SuffixesSame(p.suffixes, q.suffixes, 0);
    } else {
      TotalPreorder(p, q, q);
    }
  }

  lemma {:induction false} NumbersSame(a: seq<nat>, b: seq<nat>, i: nat)
    requires (i <= |a| || i <= |b|) && CompareNumbers(a, b, i) == 0 && i <= |a| && i <= |b| && a[..i] == b[..i]
    ensures a == b
    decreases |a| + |b| - i
  {
    if i < |a| && i < |b| {
      assert a[..i + 1] == a[..i] + [a[i]] && b[..i + 1] == b[..i] + [b[i]];
      NumbersSame(a, b, i + 1);
    } else {
      assert a[..i] == a && b[..i] == b;
    }
  }

  lemma {:induction false} SuffixesSame(a: seq<Suffix>, b: seq<Suffix>, i: nat)
    requires CompareSuffixes(a, b, i) == 0 && i <= |a| && i <= |b| && a[..i] == b[..i]
    requires forall s :: s in a || s in b ==> s.rank != 0
    ensures a == b
    decreases |a| + |b| - i
  {
    if i < |a| || i < |b| {
      assert SuffixAt(a, i) == SuffixAt(b, i);
      assert i < |a| ==> a[i] in a;
      assert i < |b| ==> b[i] in b;
      assert a[..i + 1] == a[..i] + [a[i]] && b[..i + 1] == b[..i] + [b[i]];
      SuffixesSame(a, b, i + 1);
    } else {
      assert a[..i] == a && b[..i] == b;
    }
  }

  // -------------------------------------------------------------- what comes first

  /** The first difference is a smaller number, or `a` ends there. */
  ghost predicate NumbersBefore(a: seq<nat>, b: seq<nat>) {
    exists k :: 0 <= k <= |a| && k < |b| && a[..k] == b[..k] && (k == |a| || a[k] < b[k])
  }

  predicate SuffixBefore(a: Suffix, b: Suffix) {
    a.rank < b.rank || (a.rank == b.rank && a.number < b.number)
  }

  /** At the first difference the suffix, or that there is none, is lower. */
  ghost predicate SuffixesBefore(a: seq<Suffix>, b: seq<Suffix>) {
    exists k: nat :: SuffixBefore(SuffixAt(a, k), SuffixAt(b, k)) && forall i: nat :: i < k ==>
        SuffixAt(a, i) == SuffixAt(b, i)
  }

  ghost predicate SameSuffixes(a: seq<Suffix>, b: seq<Suffix>) {
    forall k: nat :: SuffixAt(a, k) == SuffixAt(b, k)
  }

  /** `p` is the older version: by its numbers, then its letter, its suffixes and
      its release, each only if those before it are equal. */
  ghost predicate Before(p: Parsed, q: Parsed) {
    || NumbersBefore(p.numbers, q.numbers)
    || (p.numbers == q.numbers && (
        || p.letter < q.letter
        || (p.letter == q.letter && (
            || SuffixesBefore(p.suffixes, q.suffixes)
            || (SameSuffixes(p.suffixes, q.suffixes) && p.release < q.release)))))
  }

  lemma {:induction false} NumbersFirst(a: seq<nat>, b: seq<nat>, i: nat)
    requires i <= |a| && i <= |b| && a[..i] == b[..i]
    ensures CompareNumbers(a, b, i) < 0 <==> NumbersBefore(a, b)
    ensures CompareNumbers(a, b, i) == 0 <==> a == b
    decreases |a| + |b| - i
  {
    if i < |a| && i < |b| && a[i] == b[i] {
      assert a[..i + 1] == a[..i] + [a[i]] && b[..i + 1] == b[..i] + [b[i]];
      NumbersFirst(a, b, i + 1);
    } else {
      assert |a| == i ==> a == a[..i];
      assert |b| == i ==> b == b[..i];
      forall k | 0 <= k <= |a| && k < |b| && a[..k] == b[..k] && (k == |a| || a[k] < b[k]) ensures k == i {
      }
    }
  }

  lemma {:induction false} SuffixesFirst(a: seq<Suffix>, b: seq<Suffix>, i: nat)
    requires forall k: nat :: k < i ==> SuffixAt(a, k) == SuffixAt(b, k)
    ensures CompareSuffixes(a, b, i) < 0 <==> SuffixesBefore(a, b)
    ensures CompareSuffixes(a, b, i) == 0 <==> SameSuffixes(a, b)
    decreases |a| + |b| - i
  {
    if i >= |a| && i >= |b| {
      forall k: nat ensures SuffixAt(a, k) == SuffixAt(b, k) {
      }
    } else if SuffixAt(a, i) == SuffixAt(b, i) {
      SuffixesFirst(a, b, i + 1);
    } else {
      assert SuffixBefore(SuffixAt(a, i), SuffixAt(b, i)) <==> CompareSuffix(SuffixAt(a, i), SuffixAt(b, i)) < 0;
      forall k: nat | SuffixBefore(SuffixAt(a, k), SuffixAt(b, k)) ensures k >= i {
      }
    }
  }

  /** compareAPKVersions is negative exactly for the older version first. */
  lemma CompareMeans(p: Parsed, q: Parsed)
    ensures Compare(p, q) < 0 <==> Before(p, q)
  {
    NumbersFirst(p.numbers, q.numbers, 0);
    SuffixesFirst(p.suffixes, q.suffixes, 0);
  }

  // --------------------------------------------------------------------- parsing

  datatype SuffixText = SuffixText(name: string, digits: string)

  /** The groups of the version form, or a text that does not match it. */
  datatype Apk = Form(parts: seq<string>, letter: string, suffixes: seq<SuffixText>,
                      release: string) | Odd(text: string)

  predicate DigitsOrNone(s: string) {
    s == "" || Digits(s)
  }

  predicate FormOk(v: Apk) {
    v.Form? ==>
      && |v.parts| > 0 && (forall i :: 0 <= i < |v.parts| ==> Digits(v.parts[i]))
      && (v.letter == "" || (|v.letter| == 1 && 'a' <= v.letter[0] <= 'z'))
      && (forall i :: 0 <= i < |v.suffixes| ==> DigitsOrNone(v.suffixes[i].digits))
      && DigitsOrNone(v.release)
  }

  type ApkName = v: Apk | FormOk(v) witness Odd("")

  function Rank(name: string): Option<int> {
    if name == "alpha" then Some(-4)
    else if name == "beta" then Some(-3)
    else if name == "pre" then Some(-2)
    else if name == "rc" then Some(-1)
    else if name == "cvs" then Some(1)
    else if name == "svn" then Some(2)
    else if name == "git" then Some(3)
    else if name == "hg" then Some(4)
    else if name == "p" then Some(5)
    else None
  }

  /** Atoi where its error is ignored: too large a number becomes the largest. */
  function Clamped(digits: string): nat
    requires DigitsOrNone(digits)
  {
    if digits == "" then 0 else if Number(digits) < LIMIT then Number(digits) else LIMIT - 1
  }

  predicate Parses(v: ApkName) {
    && v.Form? && (forall i :: 0 <= i < |v.parts| ==> Number(v.parts[i]) < LIMIT)
    && (forall i :: 0 <= i < |v.suffixes| ==> Rank(v.suffixes[i].name).Some?)
  }

  function Result(v: ApkName): Parsed
    requires Parses(v)
  {
    Parsed(seq(|v.parts|, i requires 0 <= i < |v.parts| => Number(v.parts[i])),
           if v.letter == "" then 0 else v.letter[0] as nat,
           seq(|v.suffixes|, i requires 0 <= i < |v.suffixes| =>
               Suffix(Rank(v.suffixes[i].name).value, Clamped(v.suffixes[i].digits))),
           Clamped(v.release))
  }

  /** parseAPKVersion. */
  method ParseAPKVersion(v: ApkName) returns (r: Option<Parsed>)
    ensures r.Some? <==> Parses(v)
    ensures r.Some? ==> r.value == Result(v)
  {
    if v.Odd? {
      return None;
    }
    var numbers: seq<nat> := [];
    for i := 0 to |v.parts|
      invariant |numbers| == i && forall k :: 0 <= k < i ==> numbers[k] == Number(v.parts[k]) < LIMIT
    {
      if Number(v.parts[i]) >= LIMIT {
        return None;
      }
      numbers := numbers + [Number(v.parts[i])];
    }
    var suffixes: seq<Suffix> := [];
    for i := 0 to |v.suffixes|
      invariant |suffixes| == i
      invariant forall k :: 0 <= k < i ==> Rank(v.suffixes[k].name).Some?
      invariant forall k :: 0 <= k < i ==>
          suffixes[k] == Suffix(Rank(v.suffixes[k].name).value, Clamped(v.suffixes[k].digits))
    {
      var rank := Rank(v.suffixes[i].name);
      if rank.None? {
        return None;
      }
      suffixes := suffixes + [Suffix(rank.value, Clamped(v.suffixes[i].digits))];
    }
    r := Some(Parsed(numbers, if v.letter == "" then 0 else v.letter[0] as nat, suffixes, Clamped(v.release)));
    assert r.value.numbers == Result(v).numbers && r.value.suffixes == Result(v).suffixes;
  }

  function JoinDots(parts: seq<string>): string {
    if parts == [] then "" else if |parts| == 1 then parts[0] else parts[0] + "." + JoinDots(parts[1..])
  }

  function SuffixesText(s: seq<SuffixText>): string {
    if s == [] then "" else "_" + s[0].name + s[0].digits + SuffixesText(s[1..])
  }

  function Text(v: ApkName): string {
    match v
    case Odd(text) => text
    case Form(parts, letter, suffixes, release) =>
      JoinDots(parts) + letter + SuffixesText(suffixes) + (if release == "" then "" else "-r" + release)
  }

  /** strings.Compare. */
  function CompareText(a: string, b: string): int {
    if a == [] && b == [] then 0
    else if a == [] then -1
    else if b == [] then 1
    else First(Sign(a[0] as int, b[0] as int), CompareText(a[1..], b[1..]))
  }

  /** compareAPKVersions. */
  function CompareAPK(a: ApkName, b: ApkName): int {
    if Parses(a) && Parses(b) then Compare(Result(a), Result(b)) else CompareText(Text(a), Text(b))
  }

  method CompareAPKVersions(a: ApkName, b: ApkName) returns (c: int)
    ensures c == CompareAPK(a, b)
  {
    var pa := ParseAPKVersion(a);
    var pb := ParseAPKVersion(b);
    if pa.None? || pb.None? {
      return CompareText(Text(a), Text(b));
    }
    c := CompareParsed(pa.value, pb.value);
  }

  /** With a version that does not parse it is no order: "9", "10" and "2-" go
      round in a circle. */
  lemma UnparsedCircle()
    ensures var a, b, c: ApkName := Form(["9"], "", [], ""), Form(["10"], "", [], ""), Odd("2-");
      CompareAPK(a, b) < 0 && CompareAPK(b, c) < 0 && CompareAPK(c, a) < 0
  {
    var a, b, c: ApkName := Form(["9"], "", [], ""), Form(["10"], "", [], ""), Odd("2-");
    assert Value("9", 0) == 0 && Number("9") == 9;
    assert Value("10", 0) == 0 && Value("10", 1) == 1 && Number("10") == 10;
    assert Parses(a) && Parses(b);
    assert Text(a) == "9" && Text(b) == "10" && Text(c) == "2-";
    assert Sign('1' as int, '2' as int) == -1 && CompareText("10", "2-") == -1;
    assert Sign('2' as int, '9' as int) == -1 && CompareText("2-", "9") == -1;
    assert CompareNumbers([9], [10], 0) == -1;
  }

  /** The suffixes in their order, those before the release and those after it. */
  const SUFFIXES: seq<string> := ["alpha", "beta", "pre", "rc", "", "cvs", "svn", "git", "hg", "p"]

  function WithSuffix(parts: seq<string>, letter: string, i: nat, digits: string): Apk
    requires i < |SUFFIXES|
  {
    Form(parts, letter, if i == 4 then [] else [SuffixText(SUFFIXES[i], digits)], "")
  }

  lemma SuffixRank(i: nat)
    requires i < |SUFFIXES|
    ensures i != 4 ==> Rank(SUFFIXES[i]) == Some(i - 4)
  {
  }

  /** Of one version with different suffixes the order is that of the suffixes,
      whatever their numbers; the bare version is between. */
  lemma SuffixesOrdered(parts: seq<string>, letter: string, i: nat, j: nat, d: string, e: string)
    requires i < j < |SUFFIXES| && DigitsOrNone(d) && DigitsOrNone(e)
    requires FormOk(Form(parts, letter, [], "")) && Parses(Form(parts, letter, [], ""))
    ensures CompareAPK(WithSuffix(parts, letter, i, d), WithSuffix(parts, letter, j, e)) < 0
  {
    var a: ApkName, b: ApkName := WithSuffix(parts, letter, i, d), WithSuffix(parts, letter, j, e);
    SuffixRank(i);
    SuffixRank(j);
    assert Parses(a) && Parses(b);
    assert Result(a).numbers == Result(b).numbers;
    NumbersOpposite(Result(a).numbers, Result(b).numbers, 0);
    SuffixesUnroll(Result(a).suffixes, Result(b).suffixes, 0);
  }

  /** The text ends first, or has the lower character where they differ first. */
  ghost predicate TextBefore(a: string, b: string) {
    exists k :: 0 <= k <= |a| && k < |b| && a[..k] == b[..k] && (k == |a| || a[k] < b[k])
  }

  /** Of versions that do not parse the texts are compared. */
  lemma {:induction false} TextMeans(a: string, b: string)
    ensures CompareText(a, b) == 0 <==> a == b
    ensures CompareText(a, b) < 0 <==> TextBefore(a, b)
    decreases |a|
  {
    if a != [] && b != [] && a[0] == b[0] {
      TextMeans(a[1..], b[1..]);
      TextTail(a, b);
    } else if a != [] && b != [] {
      assert a[..0] == b[..0];
      forall k | 0 < k <= |a| && k < |b| ensures a[..k] != b[..k] {
        assert a[..k][0] == a[0] && b[..k][0] == b[0];
      }
    } else if b != [] {
      assert a[..0] == b[..0];
    }
  }

  lemma TextTail(a: string, b: string)
    requires a != [] && b != [] && a[0] == b[0]
    ensures TextBefore(a, b) <==> TextBefore(a[1..], b[1..])
    ensures a == b <==> a[1..] == b[1..]
  {
    assert a == [a[0]] + a[1..] && b == [b[0]] + b[1..];
    if TextBefore(a[1..], b[1..]) {
      TextMore(a[0], a[1..], b[1..]);
    }
    if TextBefore(a, b) {
      TextLess(a, b);
    }
  }

  lemma TextMore(first: char, a: string, b: string)
    requires TextBefore(a, b)
    ensures TextBefore([first] + a, [first] + b)
  {
    var k :| 0 <= k <= |a| && k < |b| && a[..k] == b[..k] && (k == |a| || a[k] < b[k]);
    var c, d := [first] + a, [first] + b;
    assert c[..k + 1] == [first] + a[..k] && d[..k + 1] == [first] + b[..k];
  }

  lemma TextLess(a: string, b: string)
    requires a != [] && b != [] && a[0] == b[0] && TextBefore(a, b)
    ensures TextBefore(a[1..], b[1..])
  {
    var k :| 0 <= k <= |a| && k < |b| && a[..k] == b[..k] && (k == |a| || a[k] < b[k]);
    assert a[1..][..k - 1] == a[..k][1..] && b[1..][..k - 1] == b[..k][1..];
  }

  /** A later letter is a later version, whatever the suffixes and releases. */
  lemma LettersOrdered(parts: seq<string>, c: char, d: char, p: ApkName, q: ApkName)
    requires 'a' <= c < d <= 'z' && p.Form? && q.Form? && Parses(p) && Parses(q)
    requires p.parts == q.parts == parts && q.letter == [d] && (p.letter == [c] || p.letter == "")
    ensures CompareAPK(p, q) < 0 && FormOk(Form(parts, [c], p.suffixes, p.release))
  {
    assert Result(p).numbers == Result(q).numbers;
    NumbersOpposite(Result(p).numbers, Result(q).numbers, 0);
  }

  // ---------------------------------------------------- agreement with the order

  /** The APK version of a release tag: the tag without its v, with _beta for
      -beta. */
  function ApkOf(t: Name): ApkName
    requires Versioned(t)
  {
    if t.Beta? then Form([t.x, t.y, t.z], "", [SuffixText("beta", t.n)], "") else Form([t.x, t.y, t.z], "", [], "")
  }

  /** Every number of the tag is below the bound. */
  predicate Within(t: Name, bound: nat)
    requires Versioned(t)
  {
    var v := VersionOf(t);
    v.x < bound && v.y < bound && v.z < bound && BetaNumber(t) < bound
  }

  /** The three numbers of the tag's version are below 2^63. */
  predicate VersionFits(t: Name)
    requires Versioned(t)
  {
    var v := VersionOf(t);
    v.x < LIMIT && v.y < LIMIT && v.z < LIMIT
  }

  /** A beta number as the device has it. */
  function Clamp(n: nat): nat {
    if n < LIMIT then n else LIMIT - 1
  }

  lemma TagParses(t: Name)
    requires Versioned(t) && VersionFits(t)
    ensures Parses(ApkOf(t))
    ensures var v := VersionOf(t);
      Result(ApkOf(t)) == Parsed([v.x, v.y, v.z], 0, if t.Beta? then [Suffix(-3, Clamp(BetaNumber(t)))] else [], 0)
  {
    var a := ApkOf(t);
    assert Parses(a);
    assert Result(a).numbers == [VersionOf(t).x, VersionOf(t).y, VersionOf(t).z];
  }

  lemma ThreeNumbers(a: Version, b: Version)
    ensures CompareNumbers([a.x, a.y, a.z], [b.x, b.y, b.z], 0) == VersionSign(a, b)
  {
    var p, q := [a.x, a.y, a.z], [b.x, b.y, b.z];
    assert CompareNumbers(p, q, 3) == 0;
    assert CompareNumbers(p, q, 2) == Sign(a.z, b.z);
    assert CompareNumbers(p, q, 1) == First(Sign(a.y, b.y), Sign(a.z, b.z));
  }

  /** Two betas of one version with different numbers that the device cannot
      tell apart. */
  predicate Confused(a: Name, b: Name)
    requires Versioned(a) && Versioned(b)
  {
    && a.Beta? && b.Beta? && VersionOf(a) == VersionOf(b)
    && BetaNumber(a) != BetaNumber(b) && BetaNumber(a) >= LIMIT - 1 && BetaNumber(b) >= LIMIT - 1
  }

  /** The device compares release tags as the repository orders them, except
      for the pairs above, which it takes for equal. */
  lemma AgreesExactly(a: Name, b: Name)
    requires Versioned(a) && Versioned(b) && VersionFits(a) && VersionFits(b)
    ensures CompareAPK(ApkOf(a), ApkOf(b)) == Order(a, b) <==> !Confused(a, b)
    ensures Confused(a, b) ==> CompareAPK(ApkOf(a), ApkOf(b)) == 0
  {
    TagParses(a);
    TagParses(b);
    ThreeNumbers(VersionOf(a), VersionOf(b));
    VersionSignZero(VersionOf(a), VersionOf(b));
    var p, q := Result(ApkOf(a)).suffixes, Result(ApkOf(b)).suffixes;
    assert CompareSuffixes(p, q, 1) == 0;
    assert CompareSuffixes(p, q, 0) == CompareSuffix(SuffixAt(p, 0), SuffixAt(q, 0)) by {
      SuffixesUnroll(p, q, 0);
    }
  }

  lemma VersionSignZero(a: Version, b: Version)
    ensures VersionSign(a, b) == 0 <==> a == b
  {
  }

  /** So it does for all tags with numbers in range. */
  lemma Agrees(a: Name, b: Name)
    requires Versioned(a) && Versioned(b) && Within(a, LIMIT) && Within(b, LIMIT)
    ensures CompareAPK(ApkOf(a), ApkOf(b)) == Order(a, b)
  {
    AgreesExactly(a, b);
  }

  ghost predicate AgreesBelow(bound: nat) {
    forall a: Name, b: Name :: Versioned(a) && Versioned(b) && Within(a, bound) && Within(b, bound)
      ==> CompareAPK(ApkOf(a), ApkOf(b)) == Order(a, b)
  }

  function Huge(n: nat): Name
    requires n > 0
  {
    BetaTag(Version(0, 0, 0), n)
  }

  lemma HugeNumbers(n: nat)
    requires n > 0
    ensures Versioned(Huge(n)) && VersionOf(Huge(n)) == Version(0, 0, 0) && BetaNumber(Huge(n)) == n
  {
    NumberOfDecimal(0);
    NumberOfDecimal(n);
  }

  /** They agree on all tags whose numbers are below a bound if and only if the
      bound is at most 2^63. */
  lemma AgreesExactlyBelow(bound: nat)
    ensures AgreesBelow(bound) <==> bound <= LIMIT
  {
    if bound <= LIMIT {
      forall a: Name, b: Name | Versioned(a) && Versioned(b) && Within(a, bound) && Within(b, bound)
        ensures CompareAPK(ApkOf(a), ApkOf(b)) == Order(a, b)
      {
        Agrees(a, b);
      }
    } else {
      var a, b := Huge(LIMIT - 1), Huge(LIMIT);
      HugeNumbers(LIMIT - 1);
      HugeNumbers(LIMIT);
      AgreesExactly(a, b);
      assert Within(a, bound) && Within(b, bound);
    }
  }
}
