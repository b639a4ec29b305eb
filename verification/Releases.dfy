/** The order of releases: how the next version is chosen, how the package
    repository sorts releases and how a device compares APK versions. A tag is
    given by the groups that its regular expression matches; digits are ASCII. */
module Releases {
  import opened Shared

  // ------------------------------------------------------------------ decimals

  predicate Digits(s: string) {
    |s| > 0 && forall i :: 0 <= i < |s| ==> '0' <= s[i] <= '9'
  }

  /** The number of the first `n` digits. */
  function Value(s: string, n: nat): nat
    requires n <= |s| && forall i :: 0 <= i < |s| ==> '0' <= s[i] <= '9'
  {
    if n == 0 then 0 else Value(s, n - 1) * 10 + (s[n - 1] as int - '0' as int)
  }

  function Number(s: string): nat
    requires Digits(s)
  {
    Value(s, |s|)
  }

  function Decimal(v: nat): (s: string)
    ensures Digits(s)
  {
    if v < 10 then [(v + 48) as char] else Decimal(v / 10) + [(v % 10 + 48) as char]
  }

  /** No leading zero. */
  predicate Canonical(s: string) {
    Digits(s) && (|s| > 1 ==> s[0] != '0')
  }

  lemma {:induction false} ValuePrefix(a: string, b: string, n: nat)
    requires n <= |a| && (forall i :: 0 <= i < |a| ==> '0' <= a[i] <= '9') && forall i :: 0 <= i < |b| ==>
        '0' <= b[i] <= '9'
    ensures Value(a + b, n) == Value(a, n)
  {
    if n > 0 {
      ValuePrefix(a, b, n - 1);
    }
  }

  lemma {:induction false} NumberOfDecimal(v: nat)
    ensures Number(Decimal(v)) == v && Canonical(Decimal(v)) && (v > 0 ==> Decimal(v)[0] != '0')
    decreases v
  {
    if v >= 10 {
      var a, b := Decimal(v / 10), [(v % 10 + 48) as char];
      NumberOfDecimal(v / 10);
      ValuePrefix(a, b, |a|);
      assert (a + b)[0] == a[0];
    } else {
      assert Value(Decimal(v), 0) == 0;
    }
  }

  lemma DecimalStep(v: nat, digit: nat)
    requires v > 0 && digit < 10
    ensures Decimal(10 * v + digit) == Decimal(v) + [(digit + 48) as char]
  {
    var w := 10 * v + digit;
    assert w / 10 == v && w % 10 == digit;
  }

  /** Spelled without leading zeros, equal numbers are equal texts. */
  lemma {:induction false} CanonicalDecimal(s: string)
    requires Canonical(s)
    ensures Decimal(Number(s)) == s
    decreases |s|
  {
    if |s| == 1 {
      assert Value(s, 0) == 0;
    } else {
      var n := |s| - 1;
      var a, b := s[..n], [s[n]];
      assert s == a + b && a[0] == s[0];
      ValuePrefix(a, b, n);
      CanonicalDecimal(a);
      PositiveValue(a, |a|);
      DecimalStep(Number(a), s[n] as int - 48);
    }
  }

  lemma {:induction false} PositiveValue(s: string, n: nat)
    requires Digits(s) && s[0] != '0' && 0 < n <= |s|
    ensures Value(s, n) > 0
  {
    if n > 1 {
      PositiveValue(s, n - 1);
    } else {
      assert Value(s, 0) == 0;
    }
  }

  // ------------------------------------------------------------------- versions

  datatype Version = Version(x: nat, y: nat, z: nat)

  predicate Less(a: Version, b: Version) {
    a.x < b.x || (a.x == b.x && (a.y < b.y || (a.y == b.y && a.z < b.z)))
  }

  predicate AtMost(a: Version, b: Version) {
    a == b || Less(a, b)
  }

  /** Comparison of the first two numbers. */
  predicate LineLess(a: Version, b: Version) {
    a.x < b.x || (a.x == b.x && a.y < b.y)
  }

  predicate SameLine(a: Version, b: Version) {
    a.x == b.x && a.y == b.y
  }

  /** vX.Y.Z, vX.Y.Z-beta.N, or anything else. */
  datatype Tag =
    | Stable(x: string, y: string, z: string)
    | Beta(x: string, y: string, z: string, n: string)
    | Other(text: string)

  predicate TagOk(t: Tag) {
    && (t.Stable? || t.Beta? ==> Digits(t.x) && Digits(t.y) && Digits(t.z))
    && (t.Beta? ==> Canonical(t.n) && t.n[0] != '0')
  }

  type Name = t: Tag | TagOk(t) witness Other("")

  function VersionOf(t: Name): Version
    requires t.Stable? || t.Beta?
  {
    Version(Number(t.x), Number(t.y), Number(t.z))
  }

  datatype Release = Release(tag: Name, prerelease: bool, draft: bool)

  /** 'v' and the three groups of a tag, against the text of a version. */
  predicate Spells(t: Name, v: Version)
    requires t.Beta?
  {
    t.x == Decimal(v.x) && t.y == Decimal(v.y) && t.z == Decimal(v.z)
  }

  predicate CanonicalTag(t: Name)
    requires t.Beta?
  {
    Canonical(t.x) && Canonical(t.y) && Canonical(t.z)
  }

  lemma SpellsExactly(t: Name, v: Version)
    requires t.Beta?
    ensures Spells(t, v) <==> VersionOf(t) == v && CanonicalTag(t)
  {
    NumberOfDecimal(v.x);
    NumberOfDecimal(v.y);
    NumberOfDecimal(v.z);
    if CanonicalTag(t) {
      CanonicalDecimal(t.x);
      CanonicalDecimal(t.y);
      CanonicalDecimal(t.z);
    }
  }

  // ----------------------------------------------------------- the next release

  datatype Kind = Patch | Minor
  datatype Channel = StableChannel | BetaChannel
  datatype Ref = Main | Branch(x: nat, y: nat) | Elsewhere
  datatype Result<+T> = Ok(value: T) | Refused

  /** The chosen version, its beta number, and where the notes start from. */
  datatype Choice = Choice(version: Version, beta: Option<nat>, previous: Option<Name>,
                           previousVersion: Option<Version>)

  /** The releases that the stable channel counts. */
  predicate Counted(r: Release) {
    !r.prerelease && !r.tag.Beta?
  }

  function StableOnly(rs: seq<Release>, n: nat): (s: seq<Release>)
    requires n <= |rs|
    ensures forall r :: r in s ==> r in rs[..n] && Counted(r)
    ensures forall i :: 0 <= i < n && Counted(rs[i]) ==> rs[i] in s
  {
    if n == 0 then []
    else
      var rest := StableOnly(rs, n - 1);
      assert rs[..n] == rs[..n - 1] + [rs[n - 1]];
      if Counted(rs[n - 1]) then rest + [rs[n - 1]] else rest
  }

  /** The versions of the tags of the form vX.Y.Z; with `published`, only those
      that are no drafts. */
  function Versions(rs: seq<Release>, published: bool, n: nat): (vs: seq<Version>)
    requires n <= |rs|
    ensures forall i :: 0 <= i < n && rs[i].tag.Stable? && (published ==> !rs[i].draft) ==> VersionOf(rs[i].tag) in vs
    ensures forall v :: v in vs ==>
        exists i :: 0 <= i < n && rs[i].tag.Stable? && (published ==> !rs[i].draft) && VersionOf(rs[i].tag) == v
  {
    if n == 0 then []
    else
      var rest := Versions(rs, published, n - 1);
      if rs[n - 1].tag.Stable? && (published ==> !rs[n - 1].draft) then rest + [VersionOf(rs[n - 1].tag)] else rest
  }

  function Newest(vs: seq<Version>): (m: Version)
    requires vs != []
    ensures m in vs && forall v :: v in vs ==> AtMost(v, m)
  {
    if |vs| == 1 then vs[0]
    else
      var m := Newest(vs[1..]);
      assert vs == [vs[0]] + vs[1..];
      if Less(m, vs[0]) then vs[0] else m
  }

  function InLine(vs: seq<Version>, x: nat, y: nat): (r: seq<Version>)
    ensures forall v :: v in r <==> v in vs && v.x == x && v.y == y
  {
    if vs == [] then []
    else
      var rest := InLine(vs[1..], x, y);
      assert vs == [vs[0]] + vs[1..];
      if vs[0].x == x && vs[0].y == y then [vs[0]] + rest else rest
  }

  function Below(vs: seq<Version>, top: Version): (r: seq<Version>)
    ensures forall v :: v in r <==> v in vs && Less(v, top)
  {
    if vs == [] then []
    else
      var rest := Below(vs[1..], top);
      assert vs == [vs[0]] + vs[1..];
      if Less(vs[0], top) then [vs[0]] + rest else rest
  }

  predicate LaterLine(vs: seq<Version>, x: nat, y: nat) {
    exists v :: v in vs && (x < v.x || (x == v.x && y < v.y))
  }

  /** The line that a release follows; Refused for a ref that releases nothing
      or whose line is no longer the newest. */
  function LineOf(vs: seq<Version>, kind: Kind, ref: Ref): Result<seq<Version>> {
    match ref
    case Main => Ok(vs)
    case Branch(x, y) => if kind != Patch || LaterLine(vs, x, y) then Refused else Ok(InLine(vs, x, y))
    case Elsewhere => Refused
  }

  function Following(v: Version, kind: Kind): Version {
    if kind == Patch then v.(z := v.z + 1) else Version(v.x, v.y + 1, 0)
  }

  /** The stable branch of next_release. */
  function NextStable(all: seq<Release>, kind: Kind, ref: Ref): Result<Choice> {
    var rs := StableOnly(all, |all|);
    var versions := Versions(rs, false, |rs|);
    var line := LineOf(versions, kind, ref);
    if line.Refused? || line.value == [] then Refused
    else
      var version := Following(Newest(line.value), kind);
      if version in versions then Refused
      else
        var published := Below(Versions(rs, true, |rs|), version);
        var sameLine := InLine(published, version.x, version.y);
        var from := if sameLine != [] then sameLine else published;
        Ok(Choice(version, None, None, if from == [] then None else Some(Newest(from))))
  }

  /** The betas that are spelled for the target; with `published`, no drafts. */
  predicate Candidate(r: Release, target: Version, published: bool) {
    r.tag.Beta? && Spells(r.tag, target) && (published ==> !r.draft)
  }

  /** The release with the highest beta number among the first `n` candidates. */
  function LastBeta(rs: seq<Release>, target: Version, published: bool, n: nat): (r: Option<Release>)
    requires n <= |rs|
    ensures r.Some? ==> r.value in rs[..n] && Candidate(r.value, target, published)
    ensures forall i :: 0 <= i < n && Candidate(rs[i], target, published) ==>
        r.Some? && Number(rs[i].tag.n) <= Number(r.value.tag.n)
  {
    if n == 0 then None
    else
      var best := LastBeta(rs, target, published, n - 1);
      assert rs[..n] == rs[..n - 1] + [rs[n - 1]];
      if !Candidate(rs[n - 1], target, published) then best
      else if best.Some? && Number(rs[n - 1].tag.n) <= Number(best.value.tag.n) then best
      else Some(rs[n - 1])
  }

  predicate LaterTarget(rs: seq<Release>, target: Version) {
    exists i :: 0 <= i < |rs| && rs[i].tag.Beta? && Less(target, VersionOf(rs[i].tag))
  }

  /** The number after the highest candidate's. */
  function NextNumber(all: seq<Release>, target: Version): nat {
    var last := LastBeta(all, target, false, |all|);
    1 + if last.Some? then Number(last.value.tag.n) else 0
  }

  /** next_release. */
  function NextRelease(all: seq<Release>, kind: Kind, ref: Ref, channel: Channel): Result<Choice> {
    if channel == StableChannel then NextStable(all, kind, ref)
    else
      var base := NextStable(StableOnly(all, |all|), kind, ref);
      if base.Refused? || LaterTarget(all, base.value.version) then Refused
      else
        var from := LastBeta(all, base.value.version, true, |all|);
        Ok(base.value.(beta := Some(NextNumber(all, base.value.version)),
                       previous := if from.Some? then Some(from.value.tag) else None))
  }

  // ------------------------------------------------------- versions go forward

  /** The newest version of the line that a release follows. */
  function Top(all: seq<Release>, kind: Kind, ref: Ref): Version
    requires NextStable(all, kind, ref).Ok?
  {
    var rs := StableOnly(all, |all|);
    Newest(LineOf(Versions(rs, false, |rs|), kind, ref).value)
  }

  /** `v` is not below the version that follows `top`. */
  predicate Beyond(v: Version, kind: Kind, top: Version) {
    if kind == Patch then Less(top, v) else LineLess(top, v)
  }

  lemma BeyondMeans(v: Version, kind: Kind, top: Version)
    ensures Beyond(v, kind, top) <==> !Less(v, Following(top, kind))
  {
  }

  /** The chosen version is above every counted version. */
  lemma AboveCounted(vs: seq<Version>, kind: Kind, ref: Ref, v: Version)
    requires LineOf(vs, kind, ref).Ok? && LineOf(vs, kind, ref).value != [] && v in vs
    ensures Less(v, Following(Newest(LineOf(vs, kind, ref).value), kind))
  {
    var line := LineOf(vs, kind, ref).value;
    var top := Newest(line);
    if ref.Branch? {
      assert top.x == ref.x && top.y == ref.y;
      if v in line {
        assert AtMost(v, top);
      } else {
        assert !(ref.x < v.x || (ref.x == v.x && ref.y < v.y));
      }
    } else {
      assert AtMost(v, top);
    }
  }

  /** The check for an existing version never stops a release. */
  lemma NeverExists(vs: seq<Version>, kind: Kind, ref: Ref)
    requires LineOf(vs, kind, ref).Ok? && LineOf(vs, kind, ref).value != []
    ensures Following(Newest(LineOf(vs, kind, ref).value), kind) !in vs
  {
    var version := Following(Newest(LineOf(vs, kind, ref).value), kind);
    if version in vs {
      AboveCounted(vs, kind, ref, version);
    }
  }

  /** The chosen version is the one right after a counted one: its patch number
      is one more, or it begins the next minor line of one. */
  lemma StableFollows(all: seq<Release>, kind: Kind, ref: Ref)
    requires NextStable(all, kind, ref).Ok?
    ensures var v := NextStable(all, kind, ref).value.version;
      if kind == Patch then v.z > 0 && HasVersion(all, Version(v.x, v.y, v.z - 1)) && !LaterInLine(all, v)
      else v.z == 0 && v.y > 0 && exists w :: HasVersion(all, w) && w.x == v.x && w.y == v.y - 1
  {
    var rs := StableOnly(all, |all|);
    var top, v := Top(all, kind, ref), NextStable(all, kind, ref).value.version;
    assert top in Versions(rs, false, |rs|);
    TopExists(all, rs, top);
    if kind == Patch {
      forall w | HasVersion(all, w) && SameLine(w, v) ensures w.z < v.z {
        var i :| 0 <= i < |all| && Counted(all[i]) && all[i].tag.Stable? && VersionOf(all[i].tag) == w;
        CountedBelow(all, kind, ref, i);
      }
    }
  }

  ghost predicate HasVersion(all: seq<Release>, v: Version) {
    exists i :: 0 <= i < |all| && Counted(all[i]) && all[i].tag.Stable? && VersionOf(all[i].tag) == v
  }

  ghost predicate LaterInLine(all: seq<Release>, v: Version) {
    exists w :: HasVersion(all, w) && SameLine(w, v) && w.z >= v.z
  }

  lemma {:induction false} TopExists(all: seq<Release>, rs: seq<Release>, v: Version)
    requires rs == StableOnly(all, |all|) && v in Versions(rs, false, |rs|)
    ensures HasVersion(all, v)
  {
    var j :| 0 <= j < |rs| && rs[j].tag.Stable? && VersionOf(rs[j].tag) == v;
    assert rs[j] in all[..|all|];
    var i :| 0 <= i < |all| && all[i] == rs[j];
  }

  /** The beta number is one, or one more than that of an existing beta. */
  lemma BetaFollows(all: seq<Release>, target: Version)
    ensures var n := NextNumber(all, target);
      n == 1 || exists i :: 0 <= i < |all| && Candidate(all[i], target, false) && Number(all[i].tag.n) == n - 1
  {
    var last := LastBeta(all, target, false, |all|);
    if last.Some? {
      assert last.value in all[..|all|];
      var i :| 0 <= i < |all| && all[i] == last.value;
    }
  }

  predicate ExceedsStable(all: seq<Release>, version: Version) {
    forall i :: 0 <= i < |all| && all[i].tag.Stable? ==> Less(VersionOf(all[i].tag), version)
  }

  /** Some vX.Y.Z is marked as a prerelease and beyond the newest counted one. */
  predicate FlaggedBeyond(all: seq<Release>, kind: Kind, top: Version) {
    exists i :: 0 <= i < |all| && all[i].tag.Stable? && all[i].prerelease && Beyond(VersionOf(all[i].tag), kind, top)
  }

  lemma CountedBelow(all: seq<Release>, kind: Kind, ref: Ref, i: nat)
    requires NextStable(all, kind, ref).Ok? && i < |all| && all[i].tag.Stable? && !all[i].prerelease
    ensures Less(VersionOf(all[i].tag), NextStable(all, kind, ref).value.version)
  {
    var rs := StableOnly(all, |all|);
    assert Counted(all[i]) && all[i] in rs;
    var j :| 0 <= j < |rs| && rs[j] == all[i];
    AboveCounted(Versions(rs, false, |rs|), kind, ref, VersionOf(all[i].tag));
  }

  /** A stable release exceeds every existing stable version, drafts included,
      if and only if no vX.Y.Z beyond the newest counted one is marked as a
      prerelease. In particular it always does when only betas are marked. */
  lemma StableForward(all: seq<Release>, kind: Kind, ref: Ref)
    requires NextStable(all, kind, ref).Ok?
    ensures ExceedsStable(all, NextStable(all, kind, ref).value.version) <==>
        !FlaggedBeyond(all, kind, Top(all, kind, ref))
  {
    var version, top := NextStable(all, kind, ref).value.version, Top(all, kind, ref);
    assert version == Following(top, kind);
    forall i | 0 <= i < |all| && all[i].tag.Stable?
      ensures Less(VersionOf(all[i].tag), version) <==> !(all[i].prerelease && Beyond(VersionOf(all[i].tag), kind, top))
    {
      BeyondMeans(VersionOf(all[i].tag), kind, top);
      if !all[i].prerelease {
        CountedBelow(all, kind, ref, i);
      }
    }
  }

  /** v1.0.1 marked as a prerelease is chosen again. */
  lemma FlaggedIsChosenAgain()
    ensures var all := [Release(Stable("1", "0", "0"), false, false), Release(Stable("1", "0", "1"), true, false)];
      var r := NextStable(all, Patch, Main); r.Ok? && r.value.version == Version(1, 0, 1) == VersionOf(all[1].tag)
  {
    var a, b := Release(Stable("1", "0", "0"), false, false), Release(Stable("1", "0", "1"), true, false);
    var all := [a, b];
    assert Value("1", 0) == 0 && Value("0", 0) == 0 && Number("1") == 1 && Number("0") == 0;
    var rs := StableOnly(all, 2);
    assert StableOnly(all, 0) == [] && StableOnly(all, 1) == [a] && rs == [a];
    var vs := Versions(rs, false, 1);
    assert Versions(rs, false, 0) == [] && vs == [Version(1, 0, 0)];
    assert Newest(vs) == Version(1, 0, 0);
    NeverExists(vs, Patch, Main);
  }

  /** The notes start from a published release below the new version, in its
      line if it has one there, and none of the same kind lies between. */
  lemma PreviousIsClosest(all: seq<Release>, kind: Kind, ref: Ref, v: Version)
    requires NextStable(all, kind, ref).Ok?
    requires exists i :: 0 <= i < |all| && Counted(all[i]) && all[i].tag.Stable? && !all[i].draft
                         && VersionOf(all[i].tag) == v
    requires Less(v, NextStable(all, kind, ref).value.version)
    ensures var c := NextStable(all, kind, ref).value;
      && c.previousVersion.Some? && Less(c.previousVersion.value, c.version)
      && (SameLine(v, c.version) ==> SameLine(c.previousVersion.value, c.version) && AtMost(v, c.previousVersion.value))
      && (!SameLine(c.previousVersion.value, c.version) ==> AtMost(v, c.previousVersion.value))
  {
    var rs := StableOnly(all, |all|);
    var c := NextStable(all, kind, ref).value;
    var i :| 0 <= i < |all| && Counted(all[i]) && all[i].tag.Stable? && !all[i].draft && VersionOf(all[i].tag) == v;
    assert all[i] in rs;
    var j :| 0 <= j < |rs| && rs[j] == all[i];
    assert v in Versions(rs, true, |rs|);
    var published := Below(Versions(rs, true, |rs|), c.version);
    var sameLine := InLine(published, c.version.x, c.version.y);
    assert v in published;
    assert SameLine(v, c.version) ==> v in sameLine;
  }

  /** A release that the notes may start from. */
  ghost predicate Published(all: seq<Release>, v: Version) {
    exists i :: 0 <= i < |all| && Counted(all[i]) && all[i].tag.Stable? && !all[i].draft && VersionOf(all[i].tag) == v
  }

  lemma {:induction false} PublishedMeans(all: seq<Release>, v: Version)
    ensures var rs := StableOnly(all, |all|); v in Versions(rs, true, |rs|) <==> Published(all, v)
  {
    var rs := StableOnly(all, |all|);
    if v in Versions(rs, true, |rs|) {
      var j :| 0 <= j < |rs| && rs[j].tag.Stable? && !rs[j].draft && VersionOf(rs[j].tag) == v;
      assert rs[j] in all[..|all|];
      var i :| 0 <= i < |all| && all[i] == rs[j];
    }
    if i :| 0 <= i < |all| && Counted(all[i]) && all[i].tag.Stable? && !all[i].draft && VersionOf(all[i].tag) == v {
      var j :| 0 <= j < |rs| && rs[j] == all[i];
    }
  }

  lemma {:induction false} VersionsMean(all: seq<Release>, v: Version)
    ensures var rs := StableOnly(all, |all|); v in Versions(rs, false, |rs|) <==> HasVersion(all, v)
  {
    var rs := StableOnly(all, |all|);
    if v in Versions(rs, false, |rs|) {
      TopExists(all, rs, v);
    }
    if i :| 0 <= i < |all| && Counted(all[i]) && all[i].tag.Stable? && VersionOf(all[i].tag) == v {
      var j :| 0 <= j < |rs| && rs[j] == all[i];
    }
  }

  /** `p` is published and below `version`, of its line if one of these is, and the
      newest such. */
  ghost predicate Closest(all: seq<Release>, version: Version, p: Version) {
    && Published(all, p) && Less(p, version)
    && forall v :: Published(all, v) && Less(v, version) ==>
         (SameLine(v, version) ==> SameLine(p, version))
             && (SameLine(v, version) == SameLine(p, version) ==> AtMost(v, p))
  }

  /** The notes of a stable release start exactly from the closest one. */
  lemma {:induction false} PreviousExactly(all: seq<Release>, kind: Kind, ref: Ref)
    requires NextStable(all, kind, ref).Ok?
    ensures var c := NextStable(all, kind, ref).value;
      if c.previousVersion.Some? then Closest(all, c.version, c.previousVersion.value)
      else forall v :: Published(all, v) ==> !Less(v, c.version)
  {
    var rs, c := StableOnly(all, |all|), NextStable(all, kind, ref).value;
    var published := Below(Versions(rs, true, |rs|), c.version);
    var sameLine := InLine(published, c.version.x, c.version.y);
    forall v ensures v in published <==> Published(all, v) && Less(v, c.version) {
      PublishedMeans(all, v);
    }
    assert forall v :: v in sameLine <==> v in published && SameLine(v, c.version);
    if published == [] {
      assert sameLine == [];
    } else {
      assert published[0] in published;
    }
  }

  /** When the stable channel refuses: nothing to follow, a branch that may not be
      released from, or a newer line. */
  lemma {:induction false} StableRefused(all: seq<Release>, kind: Kind, ref: Ref)
    ensures NextStable(all, kind, ref).Refused? <==>
      match ref
      case Main => forall v :: !HasVersion(all, v)
      case Branch(x, y) =>
        || kind.Minor? || (exists v :: HasVersion(all, v) && LineLess(Version(x, y, 0), v))
        || (forall v :: HasVersion(all, v) ==> !SameLine(v, Version(x, y, 0)))
      case Elsewhere => true
  {
    var rs := StableOnly(all, |all|);
    var versions := Versions(rs, false, |rs|);
    forall v ensures v in versions <==> HasVersion(all, v) {
      VersionsMean(all, v);
    }
    if LineOf(versions, kind, ref).Ok? && LineOf(versions, kind, ref).value != [] {
      NeverExists(versions, kind, ref);
    }
    match ref
    case Main => NoneOf(versions);
    case Branch(x, y) => BranchMeans(all, versions, x, y);
    case Elsewhere =>
  }

  lemma NoneOf(vs: seq<Version>)
    ensures vs == [] <==> forall v :: v !in vs
  {
    if vs != [] {
      assert vs[0] in vs;
    }
  }

  lemma {:induction false} BranchMeans(all: seq<Release>, versions: seq<Version>, x: nat, y: nat)
    requires forall v :: v in versions <==> HasVersion(all, v)
    ensures LaterLine(versions, x, y) <==> exists v :: HasVersion(all, v) && LineLess(Version(x, y, 0), v)
    ensures InLine(versions, x, y) == [] <==> forall v :: HasVersion(all, v) ==> !SameLine(v, Version(x, y, 0))
  {
    if v :| v in versions && (x < v.x || (x == v.x && y < v.y)) {
      assert HasVersion(all, v) && LineLess(Version(x, y, 0), v);
    }
    if v :| HasVersion(all, v) && LineLess(Version(x, y, 0), v) {
      assert v in versions;
    }
    NoneOf(InLine(versions, x, y));
    forall v ensures v in InLine(versions, x, y) <==> HasVersion(all, v) && SameLine(v, Version(x, y, 0)) {
    }
  }

  /** A beta is refused exactly if the stable release would be, or a beta of a
      newer version exists; its notes start exactly from the highest published
      beta of its version, or else where those of the stable release would. */
  lemma {:induction false} BetaExactly(all: seq<Release>, kind: Kind, ref: Ref)
    ensures var base, r := NextStable(StableOnly(all, |all|), kind, ref), NextRelease(all, kind, ref, BetaChannel);
      && (r.Refused? <==> base.Refused? || exists i ::
            0 <= i < |all| && all[i].tag.Beta? && Less(base.value.version, VersionOf(all[i].tag)))
      && (r.Ok? ==> r.value.previousVersion == base.value.previousVersion)
      && (r.Ok? && r.value.previous.None? ==> forall i :: 0 <= i < |all| ==> !PublishedBeta(all[i], r.value.version))
      && (r.Ok? && r.value.previous.Some? ==> HighestBeta(all, r.value.version, r.value.previous.value))
  {
    var base := NextStable(StableOnly(all, |all|), kind, ref);
    if base.Ok? {
      var from := LastBeta(all, base.value.version, true, |all|);
      forall i | 0 <= i < |all|
        ensures PublishedBeta(all[i], base.value.version) <==> Candidate(all[i], base.value.version, true)
      {
        if all[i].tag.Beta? {
          SpellsExactly(all[i].tag, base.value.version);
        }
      }
      if from.Some? {
        assert from.value in all[..|all|];
        var i :| 0 <= i < |all| && all[i] == from.value;
      }
    }
  }

  /** A published beta of this version, spelled without leading zeros. */
  predicate PublishedBeta(r: Release, v: Version) {
    !r.draft && r.tag.Beta? && VersionOf(r.tag) == v && CanonicalTag(r.tag)
  }

  ghost predicate HighestBeta(all: seq<Release>, v: Version, tag: Name) {
    && (exists i :: 0 <= i < |all| && PublishedBeta(all[i], v) && all[i].tag == tag)
    && forall i :: 0 <= i < |all| && PublishedBeta(all[i], v) ==>
        Number(all[i].tag.n) <= (if tag.Beta? then Number(tag.n) else 0)
  }

  // ------------------------------------------------------------------- the order

  function Sign(a: int, b: int): int {
    if a < b then -1 else if a > b then 1 else 0
  }

  function First(a: int, b: int): int {
    if a != 0 then a else b
  }

  function VersionSign(a: Version, b: Version): int {
    First(Sign(a.x, b.x), First(Sign(a.y, b.y), Sign(a.z, b.z)))
  }

  predicate Versioned(t: Name) {
    t.Stable? || t.Beta?
  }

  function BetaNumber(t: Name): nat {
    if t.Beta? then Number(t.n) else 0
  }

  /** A versioned tag as its numbers; a stable one has no beta number. */
  datatype Key = Key(version: Version, beta: Option<nat>)

  function KeyOf(t: Name): Key
    requires Versioned(t)
  {
    Key(VersionOf(t), if t.Beta? then Some(Number(t.n)) else None)
  }

  /** The comparison of two keys: a stable release is above its betas. */
  function KeyOrder(a: Key, b: Key): int {
    First(VersionSign(a.version, b.version),
          First(Sign(if a.beta.Some? then 0 else 1, if b.beta.Some? then 0 else 1),
                Sign(if a.beta.Some? then a.beta.value else 0, if b.beta.Some? then b.beta.value else 0)))
  }

  /** `order` of two versioned tags. */
  function Order(a: Name, b: Name): int
    requires Versioned(a) && Versioned(b)
  {
    KeyOrder(KeyOf(a), KeyOf(b))
  }

  /** A release comes before another by its version, and a beta before the stable
      release of its version and before betas with higher numbers. */
  lemma OrderMeans(a: Name, b: Name)
    requires Versioned(a) && Versioned(b)
    ensures Order(a, b) < 0 <==>
      || Less(VersionOf(a), VersionOf(b))
      || (VersionOf(a) == VersionOf(b) && a.Beta? && (b.Stable? || Number(a.n) < Number(b.n)))
    ensures Order(b, a) == -Order(a, b)
  {
  }

  /** The tag of a beta that was chosen. */
  function BetaTag(version: Version, n: nat): Name
    requires n > 0
  {
    NumberOfDecimal(n);
    Beta(Decimal(version.x), Decimal(version.y), Decimal(version.z), Decimal(n))
  }

  /** The tag is below the beta `n` of the version. */
  lemma BelowBeta(t: Name, version: Version, n: nat)
    requires n > 0 && Versioned(t)
    ensures Order(t, BetaTag(version, n)) < 0 <==>
            Less(VersionOf(t), version) || (VersionOf(t) == version && t.Beta? && BetaNumber(t) < n)
  {
    NumberOfDecimal(n);
    NumberOfDecimal(version.x);
    NumberOfDecimal(version.y);
    NumberOfDecimal(version.z);
  }

  predicate ExceedsVersioned(all: seq<Release>, version: Version, n: nat)
    requires n > 0
  {
    forall i :: 0 <= i < |all| && Versioned(all[i].tag) ==> Order(all[i].tag, BetaTag(version, n)) < 0
  }

  /** A beta of the target is spelled with leading zeros, and its number is above
      those of all betas of the target that are spelled without. */
  predicate Overlooked(all: seq<Release>, target: Version) {
    exists i :: 0 <= i < |all| && all[i].tag.Beta? && VersionOf(all[i].tag) == target && !CanonicalTag(all[i].tag)
      && AboveCanonical(all, target, Number(all[i].tag.n))
  }

  predicate AboveCanonical(all: seq<Release>, target: Version, n: nat) {
    forall i :: 0 <= i < |all| && all[i].tag.Beta? && VersionOf(all[i].tag) == target && CanonicalTag(all[i].tag) ==>
        Number(all[i].tag.n) < n
  }

  /** A number that occurs is above all canonical ones exactly if the search would
      not go beyond it. */
  lemma AboveMeans(all: seq<Release>, target: Version, n: nat)
    requires n > 0
    ensures AboveCanonical(all, target, n) <==> n >= NextNumber(all, target)
  {
    var last := LastBeta(all, target, false, |all|);
    forall i | 0 <= i < |all| && all[i].tag.Beta?
      ensures Candidate(all[i], target, false) <==> VersionOf(all[i].tag) == target && CanonicalTag(all[i].tag)
    {
      SpellsExactly(all[i].tag, target);
    }
    if last.Some? {
      assert last.value in all[..|all|];
      var i :| 0 <= i < |all| && all[i] == last.value;
    }
  }

  lemma PositiveNumber(t: Name)
    requires t.Beta?
    ensures Number(t.n) > 0
  {
    PositiveValue(t.n, |t.n|);
  }

  /** A beta exceeds every existing versioned release, if and only if no vX.Y.Z
      beyond the newest counted one is marked as a prerelease, and no beta of the
      version that follows the newest counted one is overlooked. */
  lemma {:induction false} BetaForward(all: seq<Release>, kind: Kind, ref: Ref, c: Choice)
    requires NextRelease(all, kind, ref, BetaChannel) == Ok(c)
    ensures c.beta.Some? && c.beta.value > 0 && NextStable(StableOnly(all, |all|), kind, ref).Ok?
    ensures var top := Top(StableOnly(all, |all|), kind, ref);
      ExceedsVersioned(all, c.version, c.beta.value) <==>
          !FlaggedBeyond(all, kind, top) && !Overlooked(all, Following(top, kind))
  {
    BetaChoice(all, kind, ref, c);
    ExceedsSplits(all, c.version, c.beta.value);
    StableTarget(all, kind, ref);
    BetaTarget(all, c.version);
  }

  lemma {:induction false} BetaChoice(all: seq<Release>, kind: Kind, ref: Ref, c: Choice)
    requires NextRelease(all, kind, ref, BetaChannel) == Ok(c)
    ensures var base := NextStable(StableOnly(all, |all|), kind, ref);
      && base.Ok? && c.version == base.value.version == Following(Top(StableOnly(all, |all|), kind, ref), kind)
      && !LaterTarget(all, c.version) && c.beta == Some(NextNumber(all, c.version))
  {
    StableChoice(StableOnly(all, |all|), kind, ref);
  }

  lemma StableChoice(all: seq<Release>, kind: Kind, ref: Ref)
    ensures var r := NextStable(all, kind, ref); r.Ok? ==> r.value.version == Following(Top(all, kind, ref), kind)
  {
  }

  /** When a beta is chosen, and which. */
  lemma {:induction false} BetaChosen(all: seq<Release>, kind: Kind, ref: Ref, target: Version)
    requires var base := NextStable(StableOnly(all, |all|), kind, ref); base.Ok? && base.value.version == target
    requires !LaterTarget(all, target)
    ensures var r := NextRelease(all, kind, ref, BetaChannel);
      r.Ok? && r.value.version == target && r.value.beta == Some(NextNumber(all, target))
  {
  }

  predicate BetasBelow(all: seq<Release>, target: Version, n: nat) {
    forall i :: 0 <= i < |all| && all[i].tag.Beta? ==>
      Less(VersionOf(all[i].tag), target) || (VersionOf(all[i].tag) == target && BetaNumber(all[i].tag) < n)
  }

  lemma ExceedsSplits(all: seq<Release>, target: Version, n: nat)
    requires n > 0
    ensures ExceedsVersioned(all, target, n) <==> ExceedsStable(all, target) && BetasBelow(all, target, n)
  {
    forall i | 0 <= i < |all| && Versioned(all[i].tag)
      ensures Order(all[i].tag, BetaTag(target, n)) < 0 <==>
        Less(VersionOf(all[i].tag), target)
            || (VersionOf(all[i].tag) == target && all[i].tag.Beta? && BetaNumber(all[i].tag) < n)
    {
      BelowBeta(all[i].tag, target, n);
    }
  }

  lemma {:induction false} StableTarget(all: seq<Release>, kind: Kind, ref: Ref)
    requires NextStable(StableOnly(all, |all|), kind, ref).Ok?
    ensures var stable := StableOnly(all, |all|);
      ExceedsStable(all, NextStable(stable, kind, ref).value.version) <==>
          !FlaggedBeyond(all, kind, Top(stable, kind, ref))
  {
    var stable := StableOnly(all, |all|);
    var target, top := NextStable(stable, kind, ref).value.version, Top(stable, kind, ref);
    forall i | 0 <= i < |all| && all[i].tag.Stable?
      ensures Less(VersionOf(all[i].tag), target) <==> !(all[i].prerelease && Beyond(VersionOf(all[i].tag), kind, top))
    {
      StableBelowTarget(all, kind, ref, i);
    }
  }

  lemma BetaTarget(all: seq<Release>, target: Version)
    requires !LaterTarget(all, target)
    ensures BetasBelow(all, target, NextNumber(all, target)) <==> !Overlooked(all, target)
  {
    var n := NextNumber(all, target);
    forall i | 0 <= i < |all| && all[i].tag.Beta?
      ensures Less(VersionOf(all[i].tag), target) || (VersionOf(all[i].tag) == target && BetaNumber(all[i].tag) < n)
         <==> !(VersionOf(all[i].tag) == target && !CanonicalTag(all[i].tag)
                && AboveCanonical(all, target, Number(all[i].tag.n)))
    {
      BetaBelowTarget(all, target, n, i);
      PositiveNumber(all[i].tag);
      AboveMeans(all, target, Number(all[i].tag.n));
    }
  }

  lemma {:induction false} StableBelowTarget(all: seq<Release>, kind: Kind, ref: Ref, i: nat)
    requires NextStable(StableOnly(all, |all|), kind, ref).Ok? && i < |all| && all[i].tag.Stable?
    ensures var stable := StableOnly(all, |all|);
      var target, top := NextStable(stable, kind, ref).value.version, Top(stable, kind, ref);
      Less(VersionOf(all[i].tag), target) <==> !(all[i].prerelease && Beyond(VersionOf(all[i].tag), kind, top))
  {
    var stable := StableOnly(all, |all|);
    BeyondMeans(VersionOf(all[i].tag), kind, Top(stable, kind, ref));
    if !all[i].prerelease {
      assert Counted(all[i]) && all[i] in stable;
      var j :| 0 <= j < |stable| && stable[j] == all[i];
      CountedBelow(stable, kind, ref, j);
    }
  }

  lemma BetaBelowTarget(all: seq<Release>, target: Version, n: nat, i: nat)
    requires !LaterTarget(all, target) && n == NextNumber(all, target) && i < |all| && all[i].tag.Beta?
    ensures Less(VersionOf(all[i].tag), target) || (VersionOf(all[i].tag) == target && BetaNumber(all[i].tag) < n)
       <==> !(VersionOf(all[i].tag) == target && !CanonicalTag(all[i].tag) && Number(all[i].tag.n) >= n)
  {
    assert !Less(target, VersionOf(all[i].tag));
    SpellsExactly(all[i].tag, target);
    if Spells(all[i].tag, target) {
      assert Candidate(all[i], target, false);
    }
  }

  /** One stable release is followed by the next patch. */
  lemma OnlyOne(a: Release)
    requires Counted(a) && a.tag.Stable?
    ensures StableOnly([a], 1) == [a]
    ensures var r := NextStable([a], Patch, Main);
      r.Ok? && r.value.version == Following(VersionOf(a.tag), Patch) && Top([a], Patch, Main) == VersionOf(a.tag)
  {
    assert StableOnly([a], 0) == [] && StableOnly([a], 1) == [a];
    var vs := Versions([a], false, 1);
    assert Versions([a], false, 0) == [] && vs == [VersionOf(a.tag)];
    NeverExists(vs, Patch, Main);
  }

  lemma OfTwo(a: Release, b: Release, target: Version)
    requires Counted(a) && a.tag.Stable? && b.tag.Beta? && !CanonicalTag(b.tag)
    ensures StableOnly([a, b], 2) == [a] && NextNumber([a, b], target) == 1
    ensures VersionOf(b.tag) == target ==> !LaterTarget([a, b], target) && Overlooked([a, b], target)
  {
    var all := [a, b];
    assert StableOnly(all, 0) == [] && StableOnly(all, 1) == [a] && StableOnly(all, 2) == [a];
    SpellsExactly(b.tag, target);
    assert LastBeta(all, target, false, 0) == None && LastBeta(all, target, false, 1) == None
        && LastBeta(all, target, false, 2) == None;
    if VersionOf(b.tag) == target {
      assert all[1].tag == b.tag && AboveCanonical(all, target, Number(b.tag.n));
    }
  }

  /** Whatever the stable release and the number of a beta of the next patch: if
      that beta is spelled with leading zeros, the next one is number 1, which
      does not exceed it. */
  lemma ZerosOverlooked(a: Release, b: Release)
    requires Counted(a) && a.tag.Stable? && b.tag.Beta? && !CanonicalTag(b.tag)
    requires VersionOf(b.tag) == Following(VersionOf(a.tag), Patch)
    ensures var r := NextRelease([a, b], Patch, Main, BetaChannel);
      r.Ok? && r.value.version == VersionOf(b.tag) && r.value.beta == Some(1)
          && !ExceedsVersioned([a, b], VersionOf(b.tag), 1)
  {
    var target := VersionOf(b.tag);
    OnlyOne(a);
    OfTwo(a, b, target);
    BetaChosen([a, b], Patch, Main, target);
    NotExceeded([a, b], target);
  }

  lemma NotExceeded(all: seq<Release>, target: Version)
    requires Overlooked(all, target) && !LaterTarget(all, target)
    ensures !ExceedsVersioned(all, target, NextNumber(all, target))
  {
    ExceedsSplits(all, target, NextNumber(all, target));
    BetaTarget(all, target);
  }

  /** So after v1.2.2, with v1.02.3-beta.5 there already, the next beta is
      v1.2.3-beta.1. */
  lemma ZerosExample()
    ensures var a, b := Release(Stable("1", "2", "2"), false, false), Release(Beta("1", "02", "3", "5"), true, false);
      && Counted(a) && !CanonicalTag(b.tag) && VersionOf(a.tag) == Version(1, 2, 2)
      && VersionOf(b.tag) == Version(1, 2, 3) == Following(VersionOf(a.tag), Patch)
  {
    assert Value("1", 0) == 0 && Value("2", 0) == 0 && Value("3", 0) == 0;
    assert Value("02", 0) == 0 && Value("02", 1) == 0;
    assert Number("1") == 1 && Number("2") == 2 && Number("3") == 3 && Number("02") == 2;
  }
}
