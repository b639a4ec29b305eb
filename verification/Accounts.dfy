/** The account store: a file with a small database of users, rewritten as a
    whole by every operation. Hashes, random token versions and what happens in
    bcrypt are parameters; a save can fail before or after the file is
    replaced. The file holds the value that its JSON encodes. */
module Accounts {
  import opened Shared

  type u64 = x: int | 0 <= x < 0x1_0000_0000_0000_0000

  /** What newTokenVersion returns. */
  type Token = x: u64 | 0 < x < 0xFFFF_FFFF_FFFF_FFFF witness 1

  datatype Error =
    | NotFound | Exists | LastAdmin | SelfModification | SelfDelete | SystemAccount | SystemRename | Invalid | Rejected
    | HookFailed | Failure

  datatype Result<+T> = Ok(value: T) | Err(error: Error)

  datatype Role = Admin | Plain | Unknown(text: string)

  datatype User = User(name: string, hash: string, role: Role, enabled: bool, version: u64, mustChange: bool,
                       owner: bool)

  datatype Database = Database(version: int, users: seq<User>, legacyName: string, legacyHash: string)

  /** What is at the account file's path: nothing, the single account of older
      releases, something unreadable, or a database. */
  datatype File = Absent | Legacy(name: string, hash: string) | Garbage | Stored(db: Database)

  datatype Patch = Patch(name: Option<string>, role: Option<Role>, enabled: Option<bool>)

  const FILE_VERSION := 1

  // ------------------------------------------------------------ a valid store

  predicate NameChar(c: char, first: bool) {
    'A' <= c <= 'Z' || 'a' <= c <= 'z' || '0' <= c <= '9' || (!first && (c == '_' || c == '.' || c == '-'))
  }

  predicate ValidName(n: string) {
    1 <= |n| <= 32 && forall i :: 0 <= i < |n| ==> NameChar(n[i], i == 0)
  }

  predicate ValidRole(r: Role) {
    r == Admin || r == Plain
  }

  predicate IsAdmin(u: User) {
    u.role == Admin && u.enabled
  }

  predicate UserOk(u: User) {
    ValidName(u.name) && u.hash != "" && ValidRole(u.role) && (u.owner ==> IsAdmin(u))
  }

  predicate UniqueNames(users: seq<User>) {
    forall i, j :: 0 <= i < j < |users| ==> users[i].name != users[j].name
  }

  predicate OneOwner(users: seq<User>) {
    forall i, j :: 0 <= i < j < |users| ==> !(users[i].owner && users[j].owner)
  }

  predicate HasAdmin(users: seq<User>) {
    exists i :: 0 <= i < |users| && IsAdmin(users[i])
  }

  /** What validateDatabase demands of the users. */
  predicate UsersOk(users: seq<User>) {
    && (forall i :: 0 <= i < |users| ==> UserOk(users[i]))
    && UniqueNames(users) && OneOwner(users) && HasAdmin(users)
  }

  function NormalUser(u: User): User {
    if u.version == 0 then u.(version := 1) else u
  }

  /** No token version is zero. */
  function Normal(users: seq<User>): (r: seq<User>)
    ensures |r| == |users|
  {
    seq(|users|, i requires 0 <= i < |users| => NormalUser(users[i]))
  }

  /** The first `n` are normal, the others as they were. */
  function NormalTo(users: seq<User>, n: nat): (r: seq<User>)
    requires n <= |users|
    ensures |r| == |users|
  {
    seq(|users|, i requires 0 <= i < |users| => if i < n then NormalUser(users[i]) else users[i])
  }

  lemma NormalStep(users: seq<User>, n: nat)
    requires n < |users|
    ensures NormalTo(users, n)[n] == users[n]
    ensures NormalTo(users, n + 1) == NormalTo(users, n)[n := NormalUser(users[n])]
    ensures users[n].version != 0 ==> NormalTo(users, n + 1) == NormalTo(users, n)
  {
  }

  lemma NormalEnds(users: seq<User>)
    ensures NormalTo(users, 0) == users && NormalTo(users, |users|) == Normal(users)
  {
  }

  lemma NormalOk(users: seq<User>)
    requires UsersOk(users)
    ensures UsersOk(Normal(users)) && Normal(Normal(users)) == Normal(users)
  {
    var i :| 0 <= i < |users| && IsAdmin(users[i]);
    assert IsAdmin(Normal(users)[i]);
  }

  predicate NonZero(users: seq<User>) {
    forall i :: 0 <= i < |users| ==> users[i].version != 0
  }

  lemma NormalSame(users: seq<User>)
    requires NonZero(users)
    ensures Normal(users) == users
  {
  }

  // ------------------------------------------------------------ the read loops

  /** userIndex. */
  method UserIndex(users: seq<User>, name: string) returns (index: int)
    ensures index == IndexOf(users, name)
  {
    for i := 0 to |users|
      invariant forall k :: 0 <= k < i ==> users[k].name != name
    {
      if users[i].name == name {
        IndexIs(users, name, i);
        return i;
      }
    }
    IndexNone(users, name, |users|);
    return -1;
  }

  /** The first user of that name, or -1. */
  function IndexOf(users: seq<User>, name: string): (index: int)
    ensures -1 <= index < |users|
    ensures index >= 0 ==> users[index].name == name && forall k :: 0 <= k < index ==> users[k].name != name
    ensures index < 0 ==> forall k :: 0 <= k < |users| ==> users[k].name != name
  {
    FirstIndex(users, name, 0)
  }

  function FirstIndex(users: seq<User>, name: string, from: nat): (index: int)
    requires from <= |users| && forall k :: 0 <= k < from ==> users[k].name != name
    ensures -1 <= index < |users|
    ensures index >= 0 ==> users[index].name == name && forall k :: 0 <= k < index ==> users[k].name != name
    ensures index < 0 ==> forall k :: 0 <= k < |users| ==> users[k].name != name
    decreases |users| - from
  {
    if from == |users| then -1 else if users[from].name == name then from else FirstIndex(users, name, from + 1)
  }

  lemma IndexIs(users: seq<User>, name: string, i: nat)
    requires i < |users| && users[i].name == name && forall k :: 0 <= k < i ==> users[k].name != name
    ensures IndexOf(users, name) == i
  {
  }

  lemma IndexNone(users: seq<User>, name: string, n: nat)
    requires n == |users| && forall k :: 0 <= k < n ==> users[k].name != name
    ensures IndexOf(users, name) == -1
  {
  }

  /** enabledAdminCount, as its callers use it: is it zero? */
  method EnabledAdminCount(users: seq<User>) returns (count: nat)
    ensures count == 0 <==> !HasAdmin(users)
  {
    count := 0;
    for i := 0 to |users|
      invariant count == 0 <==> forall k :: 0 <= k < i ==> !IsAdmin(users[k])
    {
      if users[i].role == Admin && users[i].enabled {
        count := count + 1;
      }
    }
  }

  /** The names of the first `n` users. */
  function NamesOf(users: seq<User>, n: nat): (names: set<string>)
    requires n <= |users|
    ensures forall i :: 0 <= i < n ==> users[i].name in names
    ensures forall name :: name in names ==> exists i :: 0 <= i < n && users[i].name == name
  {
    if n == 0 then {} else NamesOf(users, n - 1) + {users[n - 1].name}
  }

  function OwnerCount(users: seq<User>, n: nat): (c: nat)
    requires n <= |users|
    ensures c == 0 <==> forall i :: 0 <= i < n ==> !users[i].owner
  {
    if n == 0 then 0 else OwnerCount(users, n - 1) + if users[n - 1].owner then 1 else 0
  }

  /** The first `n` users pass the loop of validateDatabase. */
  predicate Scanned(users: seq<User>, n: nat)
    requires n <= |users|
  {
    n > 0 ==>
      && Scanned(users, n - 1) && UserOk(users[n - 1]) && users[n - 1].name !in NamesOf(users, n - 1)
      && (users[n - 1].owner ==> OwnerCount(users, n - 1) == 0)
  }

  lemma {:induction false} ScannedValid(users: seq<User>, n: nat)
    requires n <= |users| && Scanned(users, n)
    ensures forall i :: 0 <= i < n ==> UserOk(users[i])
  {
    if n > 0 {
      ScannedValid(users, n - 1);
    }
  }

  lemma {:induction false} ScannedUnique(users: seq<User>, n: nat, i: nat, j: nat)
    requires i < j < n <= |users| && Scanned(users, n)
    ensures users[i].name != users[j].name && !(users[i].owner && users[j].owner)
    decreases n
  {
    if j < n - 1 {
      ScannedUnique(users, n - 1, i, j);
    }
  }

  lemma {:induction false} ScannedPasses(users: seq<User>, n: nat)
    requires n <= |users| && (forall i :: 0 <= i < |users| ==> UserOk(users[i])) && UniqueNames(users)
        && OneOwner(users)
    ensures Scanned(users, n)
  {
    if n > 0 {
      ScannedPasses(users, n - 1);
    }
  }

  /** They pass exactly when they are valid, have different names and at most
      one of them is the owner. */
  lemma {:induction false} ScannedMeans(users: seq<User>)
    ensures Scanned(users, |users|) <==>
        (forall i :: 0 <= i < |users| ==> UserOk(users[i])) && UniqueNames(users) && OneOwner(users)
  {
    if Scanned(users, |users|) {
      ScannedValid(users, |users|);
      forall i, j | 0 <= i < j < |users| ensures users[i].name != users[j].name && !(users[i].owner && users[j].owner) {
        ScannedUnique(users, |users|, i, j);
      }
    } else if (forall i :: 0 <= i < |users| ==> UserOk(users[i])) && UniqueNames(users) && OneOwner(users) {
      ScannedPasses(users, |users|);
    }
  }

  lemma {:induction false} ScannedFails(users: seq<User>, n: nat, m: nat)
    requires n <= m <= |users| && !Scanned(users, n)
    ensures !Scanned(users, m)
    decreases m
  {
    if n < m {
      ScannedFails(users, n, m - 1);
    }
  }

  /** One turn of the loop in validateDatabase. */
  method CheckUser(users: seq<User>, n: nat, seen: set<string>, owners: nat)
    returns (err: Option<Error>, seen': set<string>, owners': nat)
    requires n < |users| && Scanned(users, n) && seen == NamesOf(users, n) && owners == OwnerCount(users, n)
    ensures err.None? <==> Scanned(users, n + 1)
    ensures err.None? ==> seen' == NamesOf(users, n + 1) && owners' == OwnerCount(users, n + 1)
  {
    var user := users[n];
    seen', owners', err := seen, owners, None;
    if !ValidName(user.name) || user.hash == "" || !ValidRole(user.role) || user.name in seen {
      return Some(Invalid), seen', owners';
    }
    seen' := seen + {user.name};
    if user.owner {
      owners' := owners + 1;
      if user.role != Admin || !user.enabled || owners' > 1 {
        err := Some(SystemAccount);
      }
    }
  }

  /** validateDatabase accepts exactly the valid databases of this version and
      replaces zero token versions. */
  method ValidateDatabase(db: Database) returns (err: Option<Error>, users: seq<User>)
    ensures err.None? <==> db.version == FILE_VERSION && UsersOk(db.users)
    ensures err.None? ==> users == Normal(db.users)
  {
    users := db.users;
    if db.version != FILE_VERSION || |users| == 0 {
      return Some(Invalid), users;
    }
    ScannedMeans(users);
    err, users := ScanUsers(db.users);
    if err.Some? {
      return;
    }
    var admins := EnabledAdminCount(users);
    SameAdmins(db.users, users);
    err := if admins == 0 then Some(LastAdmin) else None;
  }

  /** The loop of validateDatabase. */
  method ScanUsers(input: seq<User>) returns (err: Option<Error>, users: seq<User>)
    ensures err.None? <==> Scanned(input, |input|)
    ensures err.None? ==> users == Normal(input)
  {
    users := input;
    NormalEnds(input);
    var seen: set<string>, owners := {}, 0;
    for i := 0 to |input|
      invariant |users| == |input| && Scanned(input, i) && seen == NamesOf(input, i) && owners == OwnerCount(input, i)
      invariant users == NormalTo(input, i)
    {
      NormalStep(input, i);
      err, seen, owners := CheckUser(input, i, seen, owners);
      if err.Some? {
        ScannedFails(input, i + 1, |input|);
        return;
      }
      if users[i].version == 0 {
        users := users[i := users[i].(version := 1)];
      }
    }
    err := None;
  }

  lemma SameAdmins(a: seq<User>, b: seq<User>)
    requires |a| == |b| && forall k :: 0 <= k < |a| ==> b[k] == NormalUser(a[k])
    ensures HasAdmin(a) <==> HasAdmin(b)
  {
    if i :| 0 <= i < |a| && IsAdmin(a[i]) {
      assert IsAdmin(b[i]);
    }
    if i :| 0 <= i < |b| && IsAdmin(b[i]) {
      assert IsAdmin(a[i]);
    }
  }

  // -------------------------------------------------------- the legacy mirror

  /** `i` is whose account a single-user release must see: the device owner's,
      or without one the first enabled administrator's. */
  predicate Mirrored(users: seq<User>, i: int) {
    && 0 <= i < |users|
    && (users[i].owner || (IsAdmin(users[i]) && forall k :: 0 <= k < |users| ==>
                           !users[k].owner && (k < i ==> !IsAdmin(users[k]))))
  }

  ghost predicate MirrorOk(db: Database) {
    exists i :: Mirrored(db.users, i) && db.legacyName == db.users[i].name && db.legacyHash == db.users[i].hash
  }

  /** syncLegacyAccount. */
  method SyncLegacyAccount(db: Database) returns (db': Database)
    ensures db' == db.(legacyName := db'.legacyName, legacyHash := db'.legacyHash)
    ensures UsersOk(db.users) ==> MirrorOk(db')
  {
    var fallback := -1;
    for i := 0 to |db.users|
      invariant forall k :: 0 <= k < i ==> !db.users[k].owner
      invariant fallback == -1 ==> forall k :: 0 <= k < i ==> !IsAdmin(db.users[k])
      invariant fallback != -1 ==> 0 <= fallback < i && IsAdmin(db.users[fallback]) && forall k :: 0 <= k < fallback ==>
          !IsAdmin(db.users[k])
    {
      var user := db.users[i];
      if user.owner {
        db' := db.(legacyName := user.name, legacyHash := user.hash);
        assert Mirrored(db'.users, i);
        return;
      }
      if fallback == -1 && user.role == Admin && user.enabled {
        fallback := i;
      }
    }
    db' := db.(legacyName := "", legacyHash := "");
    if fallback != -1 {
      db' := db.(legacyName := db.users[fallback].name, legacyHash := db.users[fallback].hash);
      assert Mirrored(db'.users, fallback);
    }
  }

  // ------------------------------------------------------------------ the file

  /** What every save leaves. */
  ghost predicate WellFormed(db: Database) {
    db.version == FILE_VERSION && UsersOk(db.users) && NonZero(db.users) && MirrorOk(db)
  }

  /** The random and hashed values that a load may need, and whether the disk
      works: then no save fails. */
  datatype Env = Env(random: Token, defaultHash: string, legacyDefault: bool, works: bool)

  function OwnerUser(name: string, hash: string, random: u64, mustChange: bool): User {
    User(name, hash, Admin, true, random, mustChange, true)
  }

  /** The users that loadLocked makes of a file; None if it is not accepted. */
  function Loaded(f: File, e: Env): Option<seq<User>> {
    match f
    case Absent => Some([OwnerUser("admin", e.defaultHash, e.random, true)])
    case Legacy(name, hash) =>
      if name != "" && hash != "" && ValidName(name) then Some([OwnerUser(name, hash, e.random, e.legacyDefault)])
      else None
    case Garbage => None
    case Stored(db) => if db.version == FILE_VERSION && UsersOk(db.users) then Some(Normal(db.users)) else None
  }

  /** An operation can load the file, and save it if it has to migrate it. */
  ghost predicate Usable(f: File, e: Env) {
    Loaded(f, e).Some? && UsersOk(Loaded(f, e).value) && e.works
  }

  /** The name of the device owner that a file records. */
  function OwnerOf(f: File): Option<string> {
    match f
    case Absent => None
    case Garbage => None
    case Legacy(name, _) => Some(name)
    case Stored(db) => OwnerIn(db.users, |db.users|)
  }

  /** The last of the first `n` users that is an owner, or -1. */
  function OwnerIndex(users: seq<User>, n: nat): (i: int)
    requires n <= |users|
    ensures -1 <= i < n
  {
    if n == 0 then -1 else if users[n - 1].owner then n - 1 else OwnerIndex(users, n - 1)
  }

  function OwnerIn(users: seq<User>, n: nat): Option<string>
    requires n <= |users|
  {
    var i := OwnerIndex(users, n);
    if i < 0 then None else Some(users[i].name)
  }

  lemma {:induction false} NoOwner(users: seq<User>, n: nat)
    requires n <= |users|
    ensures OwnerIndex(users, n) < 0 <==> forall i :: 0 <= i < n ==> !users[i].owner
    ensures OwnerIndex(users, n) >= 0 ==> users[OwnerIndex(users, n)].owner
  {
    if n > 0 {
      NoOwner(users, n - 1);
    }
  }

  lemma OwnerIs(users: seq<User>, i: nat)
    requires OneOwner(users) && i < |users| && users[i].owner
    ensures OwnerIn(users, |users|) == Some(users[i].name)
  {
    NoOwner(users, |users|);
    var j := OwnerIndex(users, |users|);
    assert !(i < j) && !(j < i);
  }

  /** What any operation may do to the file: nothing, or replace it by a
      well-formed database that keeps the device owner. Only the owner itself
      (`actor`) can give the owner another name. */
  ghost predicate Kept(f: File, f': File, actor: Option<string>) {
    f' == f || (f'.Stored? && WellFormed(f'.db) && OwnerKept(f, f', actor))
  }

  predicate OwnerKept(f: File, f': File, actor: Option<string>) {
    && (OwnerOf(f).Some? ==> OwnerOf(f').Some? && (OwnerOf(f') == OwnerOf(f) || actor == OwnerOf(f)))
    && (f.Stored? && OwnerOf(f).None? ==> OwnerOf(f').None?)
  }

  /** A token is accepted: the first user of its name is enabled and has its
      version. */
  predicate Accepts(users: seq<User>, name: string, version: u64) {
    var i := IndexOf(users, name);
    i >= 0 && users[i].enabled && users[i].version == version
  }

  // ------------------------------------------------------- changes to the users

  /** TokenVersion++ on 64 bits, and what a save makes of zero. */
  function Next(v: u64): (n: u64)
    ensures n != 0 && (v != 0 ==> n != v)
  {
    if v == 0xFFFF_FFFF_FFFF_FFFF then 1 else v + 1
  }

  function Increment(v: u64): u64 {
    if v == 0xFFFF_FFFF_FFFF_FFFF then 0 else v + 1
  }

  lemma ReplaceOk(users: seq<User>, i: nat, u: User)
    requires UsersOk(users) && i < |users| && UserOk(u) && u.owner == users[i].owner
    requires forall k :: 0 <= k < |users| && k != i ==> users[k].name != u.name
    requires HasAdmin(users[i := u])
    ensures UsersOk(users[i := u])
  {
  }

  /** The name of the owner after user `i` became `u`. */
  lemma OwnerReplaced(users: seq<User>, i: nat, u: User)
    requires OneOwner(users) && i < |users| && u.owner == users[i].owner
    ensures OwnerIn(users[i := u], |users|) == if u.owner then Some(u.name) else OwnerIn(users, |users|)
  {
    var users' := users[i := u];
    assert OneOwner(users');
    NoOwner(users, |users|);
    NoOwner(users', |users|);
    var k := OwnerIndex(users, |users|);
    if k >= 0 {
      OwnerIs(users', k);
      OwnerIs(users, k);
    }
  }

  lemma AddOk(users: seq<User>, u: User)
    requires UsersOk(users) && UserOk(u) && !u.owner && forall k :: 0 <= k < |users| ==> users[k].name != u.name
    ensures UsersOk(users + [u]) && OwnerIn(users + [u], |users| + 1) == OwnerIn(users, |users|)
  {
    AddUnique(users, u);
    AddAdmin(users, u);
    OwnerPrefix(users, [u], |users|);
  }

  lemma AddUnique(users: seq<User>, u: User)
    requires UniqueNames(users) && OneOwner(users) && !u.owner && forall k :: 0 <= k < |users| ==>
        users[k].name != u.name
    ensures UniqueNames(users + [u]) && OneOwner(users + [u])
  {
    var users' := users + [u];
    forall i, j | 0 <= i < j < |users'|
      ensures users'[i].name != users'[j].name && !(users'[i].owner && users'[j].owner) {
      assert users'[i] == users[i] && (j < |users| ==> users'[j] == users[j]);
    }
  }

  lemma AddAdmin(users: seq<User>, u: User)
    requires HasAdmin(users)
    ensures HasAdmin(users + [u])
  {
    var i :| 0 <= i < |users| && IsAdmin(users[i]);
    assert IsAdmin((users + [u])[i]);
  }

  lemma {:induction false} OwnerPrefix(a: seq<User>, b: seq<User>, n: nat)
    requires n <= |a|
    ensures OwnerIndex(a + b, n) == OwnerIndex(a, n)
  {
    if n > 0 {
      OwnerPrefix(a, b, n - 1);
    }
  }

  /** The users without user `i`. */
  function Without(users: seq<User>, i: nat): (r: seq<User>)
    requires i < |users|
    ensures |r| == |users| - 1
  {
    seq(|users| - 1, k requires 0 <= k < |users| - 1 => users[if k < i then k else k + 1])
  }

  lemma WithoutIs(users: seq<User>, i: nat)
    requires i < |users|
    ensures users[..i] + users[i + 1..] == Without(users, i)
  {
  }

  lemma RemoveUnique(users: seq<User>, i: nat)
    requires i < |users| && UniqueNames(users)
    ensures UniqueNames(Without(users, i))
  {
    var users' := Without(users, i);
    forall a, b | 0 <= a < b < |users'| ensures users'[a].name != users'[b].name {
      var a', b' := if a < i then a else a + 1, if b < i then b else b + 1;
      assert users'[a] == users[a'] && users'[b] == users[b'] && a' < b';
    }
  }

  lemma RemoveOne(users: seq<User>, i: nat)
    requires i < |users| && OneOwner(users)
    ensures OneOwner(Without(users, i))
  {
    var users' := Without(users, i);
    forall a, b | 0 <= a < b < |users'| ensures !(users'[a].owner && users'[b].owner) {
      var a', b' := if a < i then a else a + 1, if b < i then b else b + 1;
      assert users'[a] == users[a'] && users'[b] == users[b'] && a' < b';
    }
  }

  lemma OwnerMoved(users: seq<User>, k: nat, users': seq<User>, k': nat)
    requires OneOwner(users) && k < |users| && users[k].owner
    requires OneOwner(users') && k' < |users'| && users'[k'] == users[k]
    ensures OwnerIn(users', |users'|) == OwnerIn(users, |users|)
  {
    OwnerIs(users, k);
    OwnerIs(users', k');
  }

  lemma RemoveOwner(users: seq<User>, i: nat)
    requires i < |users| && !users[i].owner && OneOwner(users)
    ensures OwnerIn(Without(users, i), |users| - 1) == OwnerIn(users, |users|)
  {
    var users' := Without(users, i);
    RemoveOne(users, i);
    NoOwner(users, |users|);
    NoOwner(users', |users| - 1);
    var k := OwnerIndex(users, |users|);
    if k >= 0 {
      OwnerMoved(users, k, users', if k < i then k else k - 1);
    } else {
      forall k | 0 <= k < |users'| ensures !users'[k].owner {
        var k' := if k < i then k else k + 1;
        assert !users[k'].owner;
      }
    }
  }

  lemma RemoveOk(users: seq<User>, i: nat)
    requires UsersOk(users) && i < |users| && !users[i].owner && HasAdmin(Without(users, i))
    ensures UsersOk(Without(users, i)) && OwnerIn(Without(users, i), |users| - 1) == OwnerIn(users, |users|)
  {
    RemoveUnique(users, i);
    RemoveOne(users, i);
    RemoveOwner(users, i);
    forall k | 0 <= k < |users| - 1 ensures UserOk(Without(users, i)[k]) {
      var k' := if k < i then k else k + 1;
      assert UserOk(users[k']);
    }
  }

  lemma {:induction false} OwnerNormal(users: seq<User>, n: nat)
    requires n <= |users|
    ensures OwnerIndex(Normal(users), n) == OwnerIndex(users, n)
  {
    if n > 0 {
      OwnerNormal(users, n - 1);
    }
  }

  /** Between the owner of `users` and that of `users'` there is at most a
      rename by the owner itself. */
  predicate OwnerMoves(users: seq<User>, users': seq<User>, actor: Option<string>) {
    var o, o' := OwnerIn(users, |users|), OwnerIn(users', |users'|);
    o' == o || (o.Some? && o'.Some? && actor == o)
  }

  // ----------------------------------------------------------------- the tokens

  /** With unique names, a token is accepted exactly when some enabled user has
      its name and version. */
  lemma AcceptsMeans(users: seq<User>, name: string, version: u64)
    requires UniqueNames(users)
    ensures Accepts(users, name, version) <==>
            exists i :: 0 <= i < |users| && users[i].name == name && users[i].enabled && users[i].version == version
  {
  }

  /** A changed user with another version: its old token is refused, its new one
      is accepted if it is enabled, and the tokens of others stay as they were. */
  lemma ReplaceTokens(users: seq<User>, i: nat, u: User)
    requires UniqueNames(users) && i < |users| && UniqueNames(users[i := u]) && u.version != users[i].version
    ensures !Accepts(users[i := u], users[i].name, users[i].version)
    ensures Accepts(users[i := u], u.name, u.version) <==> u.enabled
    ensures forall name, version :: name != users[i].name && name != u.name ==>
              (Accepts(users[i := u], name, version) <==> Accepts(users, name, version))
  {
    var users' := users[i := u];
    AcceptsMeans(users', users[i].name, users[i].version);
    AcceptsMeans(users', u.name, u.version);
    assert users'[i] == u;
    forall name, version | name != users[i].name && name != u.name
      ensures Accepts(users', name, version) <==> Accepts(users, name, version)
    {
      OtherIndex(users, i, u, name);
    }
  }

  lemma OtherIndex(users: seq<User>, i: nat, u: User, name: string)
    requires UniqueNames(users) && i < |users| && name != users[i].name && name != u.name
    ensures IndexOf(users[i := u], name) == IndexOf(users, name)
  {
    var k := IndexOf(users, name);
    if k >= 0 {
      IndexIs(users[i := u], name, k);
    } else {
      IndexNone(users[i := u], name, |users|);
    }
  }

  /** A deleted user's token is refused, and others' tokens are unaffected. */
  lemma RemoveTokens(users: seq<User>, i: nat, version: u64)
    requires UniqueNames(users) && i < |users|
    ensures !Accepts(Without(users, i), users[i].name, version)
    ensures forall name, v :: name != users[i].name ==>
        (Accepts(Without(users, i), name, v) <==> Accepts(users, name, v))
  {
    IndexNone(Without(users, i), users[i].name, |users| - 1);
    forall name, v | name != users[i].name ensures Accepts(Without(users, i), name, v) <==> Accepts(users, name, v) {
      OtherWithout(users, i, name);
    }
  }

  lemma OtherWithout(users: seq<User>, i: nat, name: string)
    requires UniqueNames(users) && i < |users| && name != users[i].name
    ensures var k := IndexOf(users, name);
      k != i && IndexOf(Without(users, i), name) == if k < i then k else k - 1
  {
    var k := IndexOf(users, name);
    if k >= 0 {
      IndexIs(Without(users, i), name, if k < i then k else k - 1);
    } else {
      IndexNone(Without(users, i), name, |users| - 1);
    }
  }

  // ------------------------------------------------------------------ the store

  /** What a save of `db` puts into the file. */
  ghost predicate SavedAs(db: Database, saved: Database) {
    UsersOk(db.users) && WellFormed(saved) && saved.users == Normal(db.users)
  }

  /** `users` is what the file holds, without zero versions. */
  predicate Current(f: File, users: seq<User>) {
    f.Stored? && Normal(f.db.users) == users
  }

  ghost predicate Ready(f: File, db: Database) {
    Current(f, db.users) && db.version == FILE_VERSION && UsersOk(db.users) && NonZero(db.users)
  }

  /** A save after a load keeps what an operation has to keep. */
  lemma SaveKeeps(f: File, f1: File, db: Database, users': seq<User>, saved: Database, actor: Option<string>)
    requires Kept(f, f1, None) && Ready(f1, db) && OwnerMoves(db.users, users', actor)
    requires WellFormed(saved) && saved.users == Normal(users')
    ensures Kept(f, Stored(saved), actor)
  {
    OwnerNormal(f1.db.users, |f1.db.users|);
    OwnerNormal(users', |users'|);
  }

  lemma LoadKeeps(f: File, e: Env, saved: Database)
    requires Loaded(f, e).Some? && !f.Stored? && WellFormed(saved) && saved.users == Loaded(f, e).value
    ensures Kept(f, Stored(saved), None) && Ready(Stored(saved), saved)
  {
    NormalSame(saved.users);
    assert OwnerIndex(saved.users, 1) == 0;
  }

  /** Migration is undone by going back: a single-user release finds in the mirror
      the account that its file held. */
  lemma MigrationMirrors(name: string, hash: string, e: Env, saved: Database)
    requires Loaded(Legacy(name, hash), e).Some? && WellFormed(saved)
    requires saved.users == Loaded(Legacy(name, hash), e).value
    ensures saved.legacyName == name && saved.legacyHash == hash
    ensures OwnerOf(Stored(saved)) == Some(name)
  {
    var i :| Mirrored(saved.users, i) && saved.legacyName == saved.users[i].name
        && saved.legacyHash == saved.users[i].hash;
    assert |saved.users| == 1 && i == 0;
    OwnerIs(saved.users, 0);
  }

  /** A new file holds one account, which must change its password and is the
      device owner's. */
  lemma FirstAccount(e: Env)
    requires e.defaultHash != ""
    ensures Loaded(Absent, e).Some? && UsersOk(Loaded(Absent, e).value)
    ensures var users := Loaded(Absent, e).value;
      |users| == 1 && users[0].owner && IsAdmin(users[0]) && users[0].mustChange && users[0].hash == e.defaultHash
      && Accepts(users, "admin", e.random)
  {
    var users := Loaded(Absent, e).value;
    assert IsAdmin(users[0]) && users[0].name == "admin";
    IndexIs(users, "admin", 0);
  }

  function Patched(u: User, p: Patch): User {
    u.(name := if p.name.Some? then p.name.value else u.name,
       role := if p.role.Some? then p.role.value else u.role,
       enabled := if p.enabled.Some? then p.enabled.value else u.enabled)
  }

  /** The patch would take the account's rights. */
  predicate Lowers(p: Patch) {
    (p.role.Some? && p.role.value != Admin) || (p.enabled.Some? && !p.enabled.value)
  }

  /** Why Update refuses, in the order in which it looks. */
  function UpdateError(users: seq<User>, actor: string, name: string, p: Patch): Option<Error> {
    var i := IndexOf(users, name);
    if i < 0 then Some(NotFound)
    else
      var u := users[i];
      var renames := p.name.Some? && p.name.value != name;
      if p.name.Some? && !ValidName(p.name.value) then Some(Invalid)
      else if renames && IndexOf(users, p.name.value) >= 0 then Some(Exists)
      else if u.owner && renames && actor != name then Some(SystemRename)
      else if p.role.Some? && !ValidRole(p.role.value) then Some(Invalid)
      else if actor == name && u.role == Admin && Lowers(p) then Some(SelfModification)
      else if u.owner && Lowers(p) then Some(SystemAccount)
      else AdminError(users, i, p)
  }

  /** An accepted update leaves a valid database, moves the owner's name only
      for the owner, and lets no administrator lock itself out. */
  lemma UpdateSafe(users: seq<User>, actor: string, name: string, p: Patch)
    requires UsersOk(users) && UpdateError(users, actor, name, p).None?
    requires Patched(users[IndexOf(users, name)], p) != users[IndexOf(users, name)]
    ensures var i := IndexOf(users, name);
      var u := Patched(users[i], p).(version := Increment(users[i].version));
      && UsersOk(users[i := u]) && OwnerMoves(users, users[i := u], if actor == name then Some(actor) else None)
      && (actor == name && IsAdmin(users[i]) ==> IsAdmin(u))
  {
    var i := IndexOf(users, name);
    var u' := Patched(users[i], p);
    var u := u'.(version := Increment(users[i].version));
    VersionAside(users[i := u'], i, u.version);
    assert users[i := u'][i := u] == users[i := u];
    assert UserOk(users[i]);
    ReplaceOk(users, i, u);
    OwnerReplaced(users, i, u);
    if users[i].owner {
      OwnerIs(users, i);
    }
  }

  lemma VersionAside(users: seq<User>, i: nat, version: u64)
    requires i < |users| && HasAdmin(users)
    ensures HasAdmin(users[i := users[i].(version := version)])
  {
    var k :| 0 <= k < |users| && IsAdmin(users[k]);
    assert IsAdmin(users[i := users[i].(version := version)][k]);
  }

  /** A change that keeps name, role, owner and enabled is always valid. */
  lemma SecretOk(users: seq<User>, i: nat, u: User)
    requires UsersOk(users) && i < |users| && u.hash != ""
    requires u == users[i].(hash := u.hash, mustChange := u.mustChange, version := u.version)
    ensures UsersOk(users[i := u]) && OwnerMoves(users, users[i := u], None)
  {
    var k :| 0 <= k < |users| && IsAdmin(users[k]);
    assert IsAdmin(users[i := u][k]);
    assert UserOk(users[i]);
    ReplaceOk(users, i, u);
    OwnerReplaced(users, i, u);
    if users[i].owner {
      OwnerIs(users, i);
    }
  }

  lemma NormalReplaced(users: seq<User>, i: nat, u: User)
    requires NonZero(users) && i < |users|
    ensures Normal(users[i := u]) == users[i := NormalUser(u)]
  {
  }

  class Store {
    var file: File

    /** saveLocked: it may fail before or after the file is replaced. */
    method Save(db: Database, works: bool) returns (ok: bool, saved: Database)
      modifies this
      ensures works ==> (ok <==> db.version == FILE_VERSION && UsersOk(db.users))
      ensures ok ==> file == Stored(saved) && SavedAs(db, saved)
      ensures !ok ==> file == old(file) || (file.Stored? && SavedAs(db, file.db))
    {
      var err, users := ValidateDatabase(db);
      if err.Some? {
        return false, db;
      }
      NormalOk(db.users);
      saved := SyncLegacyAccount(db.(users := users));
      var replaced: bool, synced: bool := *, *;
      if replaced || works {
        file := Stored(saved);
      }
      ok := (replaced && synced) || works;
    }

    /** loadLocked: what the file holds, or the account it stands for, which is
        saved first if the operation is going to change something. */
    method Load(migrate: bool, e: Env) returns (r: Result<Database>)
      modifies this
      ensures r.Ok? ==> Loaded(old(file), e) == Some(r.value.users)
      ensures Loaded(old(file), e).None? ==> r.Err?
      ensures Usable(old(file), e) ==> r.Ok?
      ensures r.Err? ==> r.error == Failure
      ensures !migrate && Loaded(old(file), e).Some? ==> r.Ok?
      ensures !migrate || old(file).Stored? ==> file == old(file)
      ensures Kept(old(file), file, None)
      ensures r.Ok? && migrate ==> Ready(file, r.value)
    {
      var users: seq<User>;
      match file {
      case Stored(db) =>
        var err, normal := ValidateDatabase(db);
        if err.Some? {
          return Err(Failure);
        }
        NormalOk(db.users);
        return Ok(db.(users := normal));
      case Garbage =>
        return Err(Failure);
      case Legacy(name, hash) =>
        if name == "" || hash == "" || !ValidName(name) {
          return Err(Failure);
        }
        users := [OwnerUser(name, hash, e.random, e.legacyDefault)];
      case Absent =>
        users := [OwnerUser("admin", e.defaultHash, e.random, true)];
      }
      var ok, db := true, Database(FILE_VERSION, users, "", "");
      if migrate {
        ghost var before := file;
        NormalSame(users);
        ok, db := Save(db, e.works);
        if file != before {
          LoadKeeps(before, e, file.db);
        }
        if ok {
          LoadKeeps(before, e, db);
        }
      }
      return if ok then Ok(db) else Err(Failure);
    }

    /** The end of an operation: the changed users are saved. */
    method SaveUsers(ghost before: File, db: Database, users': seq<User>, ghost actor: Option<string>,
                     works: bool)
      returns (ok: bool, saved: seq<User>)
      requires Kept(before, file, None) && Ready(file, db) && OwnerMoves(db.users, users', actor)
      modifies this
      ensures Kept(before, file, actor)
      ensures works && UsersOk(users') ==> ok
      ensures ok ==> saved == Normal(users') && file.Stored? && file.db.users == saved && WellFormed(file.db)
      ensures !ok ==> file == old(file) || (file.Stored? && WellFormed(file.db) && file.db.users == Normal(users'))
    {
      ghost var f1 := file;
      var saved';
      ok, saved' := Save(db.(users := users'), works);
      if file != f1 {
        SaveKeeps(before, f1, db, users', file.db, actor);
      }
      if ok {
        SaveKeeps(before, f1, db, users', saved', actor);
      }
      saved := saved'.users;
    }

    /** ValidateToken: accepted exactly when the account file does. */
    method ValidateToken(name: string, version: u64, e: Env) returns (r: Option<User>)
      modifies this
      ensures file == old(file)
      ensures r.Some? <==> Loaded(file, e).Some? && Accepts(Loaded(file, e).value, name, version)
    {
      var db := Load(false, e);
      if db.Err? {
        return None;
      }
      var i := UserIndex(db.value.users, name);
      if i < 0 || !db.value.users[i].enabled || db.value.users[i].version != version {
        return None;
      }
      return Some(db.value.users[i]);
    }

    method Create(name: string, passwordOk: bool, role: Role, hash: Option<string>, token: Option<Token>, e: Env)
      returns (r: Result<()>)
      modifies this
      ensures Kept(old(file), file, None)
      ensures r.Ok? ==> Loaded(old(file), e).Some? && IndexOf(Loaded(old(file), e).value, name) < 0
                        && token.Some? && hash.Some? && ValidRole(role) && ValidName(name) && passwordOk
                        && file.Stored? && file.db.users == Loaded(old(file), e).value
                            + [User(name, hash.value, role, true, token.value, false, false)]
      ensures r.Err? && r.error != Failure ==>
          file == old(file) || (Loaded(old(file), e).Some? && Current(file, Loaded(old(file), e).value))
      ensures r == Err(Exists) ==> Loaded(old(file), e).Some? && IndexOf(Loaded(old(file), e).value, name) >= 0
      ensures r == Err(Invalid) <==> !ValidName(name) || !passwordOk || !ValidRole(role)
      ensures r != Err(Invalid) && (hash.None? || hash.value == "" || token.None?) ==> r.Err?
      ensures r != Err(Invalid) && hash.Some? && hash.value != "" && token.Some? && Usable(old(file), e) ==>
                r == if IndexOf(Loaded(old(file), e).value, name) >= 0 then Err(Exists) else Ok(())
    {
      if !ValidName(name) || !passwordOk || !ValidRole(role) {
        return Err(Invalid);
      }
      if hash.None? || token.None? {
        return Err(Failure);
      }
      var db := Load(true, e);
      if db.Err? {
        return Err(Failure);
      }
      var i := UserIndex(db.value.users, name);
      if i >= 0 {
        return Err(Exists);
      }
      var u := User(name, hash.value, role, true, token.value, false, false);
      if u.hash == "" {
        return Err(Failure);
      }
      AddOk(db.value.users, u);
      NormalSame(db.value.users + [u]);
      var ok, saved := SaveUsers(old(file), db.value, db.value.users + [u], None, e.works);
      return if ok then Ok(()) else Err(Failure);
    }

    method Update(actor: string, name: string, patch: Patch, e: Env) returns (r: Result<(User, bool)>)
      modifies this
      ensures Kept(old(file), file, if actor == name then Some(actor) else None)
      ensures r.Ok? || r.error != Failure ==> Loaded(old(file), e).Some?
      ensures r.Err? && r.error != Failure ==>
          UpdateError(Loaded(old(file), e).value, actor, name, patch) == Some(r.error)
                                               && Current(file, Loaded(old(file), e).value)
      ensures r.Ok? ==> Updated(Loaded(old(file), e).value, actor, name, patch, r.value.0, r.value.1, file)
      ensures Usable(old(file), e) ==>
                var error := UpdateError(Loaded(old(file), e).value, actor, name, patch);
                if error.Some? then r == Err(error.value) else r.Ok?
    {
      var loaded := Load(true, e);
      if loaded.Err? {
        return Err(Failure);
      }
      var users := loaded.value.users;
      var error, index, user := UpdateChoice(users, actor, name, patch);
      if error.Some? {
        return Err(error.value);
      }
      if user == users[index] {
        return Ok((user, false));
      }
      UpdateSafe(users, actor, name, patch);
      user := user.(version := Increment(user.version));
      NormalReplaced(users, index, user);
      ghost var renamer := if actor == name then Some(actor) else None;
      var ok, saved := SaveUsers(old(file), loaded.value, users[index := user], renamer, e.works);
      if !ok {
        return Err(Failure);
      }
      return Ok((saved[index], true));
    }

    method Delete(actor: string, name: string, e: Env) returns (r: Result<()>)
      modifies this
      ensures Kept(old(file), file, None)
      ensures actor == name ==> r == Err(SelfDelete) && file == old(file)
      ensures r.Ok? ==> Loaded(old(file), e).Some? && Deleted(Loaded(old(file), e).value, name, file)
      ensures actor != name && Usable(old(file), e) ==>
                var error := DeleteError(Loaded(old(file), e).value, name);
                r == if error.Some? then Err(error.value) else Ok(())
      ensures r.Err? && r.error != Failure && actor != name ==> Loaded(old(file), e).Some?
      ensures r.Err? && r.error != Failure && actor != name ==> Current(file, Loaded(old(file), e).value)
      ensures r.Err? && r.error != Failure && actor != name ==>
          DeleteError(Loaded(old(file), e).value, name) == Some(r.error)
    {
      if actor == name {
        return Err(SelfDelete);
      }
      var loaded := Load(true, e);
      if loaded.Err? {
        return Err(Failure);
      }
      var error, rest := DeleteChecks(loaded.value.users, name);
      if error.Some? {
        return Err(error.value);
      }
      var ok, saved := SaveUsers(old(file), loaded.value, rest, None, e.works);
      return if ok then Ok(()) else Err(Failure);
    }

    /** SetPasswordAndRunIf: the hook runs after the commit, and when it fails
        the account is put back. */
    method SetPassword(name: string, passwordOk: bool, hash: Option<string>, accept: User -> bool, hook: Option<bool>,
                       e: Env) returns (r: Result<User>)
      modifies this
      ensures Kept(old(file), file, None)
      ensures r.Ok? ==> Loaded(old(file), e).Some? && hash.Some?
                        && PasswordSet(Loaded(old(file), e).value, name, hash.value, r.value, file)
                        && accept(Loaded(old(file), e).value[IndexOf(Loaded(old(file), e).value, name)])
                        && hook != Some(false)
      ensures r.Err? && r.error !in {Failure, Invalid} ==>
          Loaded(old(file), e).Some? && Current(file, Loaded(old(file), e).value)
      ensures r == Err(HookFailed) ==> hook == Some(false)
      ensures r == Err(Invalid) <==> !passwordOk
      ensures passwordOk && (hash.None? || hash.value == "") ==> r == Err(Failure)
      ensures passwordOk && hash.Some? && hash.value != "" && Usable(old(file), e) ==>
                var users := Loaded(old(file), e).value;
                var i := IndexOf(users, name);
                if i < 0 then r == Err(NotFound) else if !accept(users[i]) then r == Err(Rejected)
                else if hook == Some(false) then r == Err(HookFailed) else r.Ok?
    {
      if !passwordOk {
        return Err(Invalid);
      }
      if hash.None? || hash.value == "" {
        return Err(Failure);
      }
      var loaded := Load(true, e);
      if loaded.Err? {
        return Err(Failure);
      }
      var users := loaded.value.users;
      var index := UserIndex(users, name);
      if index < 0 {
        return Err(NotFound);
      }
      if !accept(users[index]) {
        return Err(Rejected);
      }
      var user := users[index].(hash := hash.value, mustChange := false, version := Increment(users[index].version));
      SecretOk(users, index, user);
      NormalReplaced(users, index, user);
      var ok, saved := SaveUsers(old(file), loaded.value, users[index := user], None, e.works);
      if !ok {
        return Err(Failure);
      }
      if hook == Some(false) {
        r := RollBack(old(file), loaded.value, saved, index, e.works);
        return;
      }
      return Ok(saved[index]);
    }

    /** The rollback saves the copy of the database from before the change. */
    method RollBack(ghost before: File, previous: Database, ghost saved: seq<User>, ghost index: nat, works: bool)
      returns (r: Result<User>)
      requires file.Stored? && WellFormed(file.db) && file.db.users == saved && index < |previous.users| == |saved|
      requires previous.version == FILE_VERSION && UsersOk(previous.users) && NonZero(previous.users)
      requires saved == previous.users[index := saved[index]] && saved[index].name == previous.users[index].name
      requires saved[index].owner == previous.users[index].owner
      requires Kept(before, file, None)
      modifies this
      ensures r == Err(HookFailed) || r == Err(Failure)
      ensures Kept(before, file, None)
      ensures r == Err(HookFailed) ==> Current(file, previous.users)
      ensures works ==> r == Err(HookFailed)
    {
      ghost var f1 := file;
      ghost var now := Database(FILE_VERSION, saved, "", "");
      NormalSame(saved);
      NormalSame(previous.users);
      assert previous.users == saved[index := previous.users[index]];
      OwnerReplaced(saved, index, previous.users[index]);
      if saved[index].owner {
        OwnerIs(saved, index);
      }
      var ok, restored := Save(previous, works);
      if file != f1 {
        SaveKeeps(before, f1, now, previous.users, file.db, None);
      }
      return Err(if ok then HookFailed else Failure);
    }

    method Revoke(name: string, e: Env) returns (r: Result<User>)
      modifies this
      ensures Kept(old(file), file, None)
      ensures r.Ok? ==> Loaded(old(file), e).Some? && Revoked(Loaded(old(file), e).value, name, r.value, file)
      ensures Usable(old(file), e) ==>
                if IndexOf(Loaded(old(file), e).value, name) < 0 then r == Err(NotFound) else r.Ok?
    {
      var loaded := Load(true, e);
      if loaded.Err? {
        return Err(Failure);
      }
      var users := loaded.value.users;
      var index := UserIndex(users, name);
      if index < 0 {
        return Err(NotFound);
      }
      var user := users[index].(version := Increment(users[index].version));
      assert UserOk(users[index]);
      SecretOk(users, index, user);
      NormalReplaced(users, index, user);
      var ok, saved := SaveUsers(old(file), loaded.value, users[index := user], None, e.works);
      if !ok {
        return Err(Failure);
      }
      return Ok(saved[index]);
    }

    /** The first part of Authenticate, before the password is compared. */
    method Lookup(name: string, e: Env) returns (r: Result<Option<User>>)
      modifies this
      ensures Kept(old(file), file, None)
      ensures r.Ok? ==> Loaded(old(file), e).Some? && Current(file, Loaded(old(file), e).value)
      ensures r.Ok? && r.value.Some? ==>
          r.value.value in Loaded(old(file), e).value && r.value.value.name == name && r.value.value.enabled
      ensures Usable(old(file), e) ==>
                var users := Loaded(old(file), e).value;
                var i := IndexOf(users, name);
                r == Ok(if i >= 0 && users[i].enabled then Some(users[i]) else None)
    {
      var loaded := Load(true, e);
      if loaded.Err? {
        return Err(Failure);
      }
      var index := UserIndex(loaded.value.users, name);
      if index < 0 || !loaded.value.users[index].enabled {
        return Ok(None);
      }
      return Ok(Some(loaded.value.users[index]));
    }

    /** The last part of Authenticate: a legacy password that was just checked
        is stored as a hash, unless the record has changed since. */
    method Upgrade(name: string, checkedHash: string, newHash: string, e: Env) returns (r: Result<Option<User>>)
      modifies this
      ensures Kept(old(file), file, None)
      ensures r.Ok? && r.value.None? ==> Loaded(old(file), e).Some? && Current(file, Loaded(old(file), e).value)
      ensures r.Ok? && r.value.Some? ==>
          Loaded(old(file), e).Some? && Upgraded(Loaded(old(file), e).value, name, checkedHash, newHash, r.value.value,
                                                 file)
      ensures newHash == "" ==> r == Err(Failure)
      ensures newHash != "" && Usable(old(file), e) ==>
                var users := Loaded(old(file), e).value;
                var i := IndexOf(users, name);
                r.Ok? && (r.value.Some? <==> i >= 0 && users[i].enabled && users[i].hash == checkedHash)
    {
      if newHash == "" {
        return Err(Failure);
      }
      var loaded := Load(true, e);
      if loaded.Err? {
        return Err(Failure);
      }
      var users := loaded.value.users;
      var index := UserIndex(users, name);
      if index < 0 || !users[index].enabled || users[index].hash != checkedHash {
        return Ok(None);
      }
      var user := NormalUser(users[index].(hash := newHash));
      SecretOk(users, index, user);
      NormalReplaced(users, index, user);
      var ok, saved := SaveUsers(old(file), loaded.value, users[index := user], None, e.works);
      if !ok {
        return Err(Failure);
      }
      return Ok(Some(saved[index]));
    }

    /** One operation of a script; `done` when it reports a change. */
    method Operate(o: Operation, e: Env) returns (done: bool)
      modifies this
      ensures Kept(old(file), file, ActorOf(o)) && Reported(o, e, old(file), file, done)
      ensures Decided(o, e, old(file), done)
    {
      match o
      case Creating(name, passwordOk, role, hash, token) =>
        var r := Create(name, passwordOk, role, hash, token, e);
        return r.Ok?;
      case Updating(actor, name, patch) =>
        var r := Update(actor, name, patch, e);
        return r.Ok? && r.value.1;
      case Deleting(actor, name) =>
        var r := Delete(actor, name, e);
        return r.Ok?;
      case _ => done := OperateSecret(o, e);
    }

    /** The operations that change no more than the secrets of an account. */
    method OperateSecret(o: Operation, e: Env) returns (done: bool)
      requires !o.Creating? && !o.Updating? && !o.Deleting?
      modifies this
      ensures Kept(old(file), file, None) && Reported(o, e, old(file), file, done)
      ensures Decided(o, e, old(file), done)
    {
      match o
      case SettingPassword(name, passwordOk, hash, accept, hook) =>
        var r := SetPassword(name, passwordOk, hash, accept, hook, e);
        return r.Ok?;
      case Revoking(name) =>
        var r := Revoke(name, e);
        return r.Ok?;
      case Upgrading(name, checkedHash, newHash) =>
        var r := Upgrade(name, checkedHash, newHash, e);
        return r.Ok? && r.value.Some?;
      case LookingUp(name) =>
        var _ := Lookup(name, e);
        return false;
      case Validating(name, version) =>
        var _ := ValidateToken(name, version, e);
        return false;
    }

    /** Any script of operations: the files it passes through are a history, and
        every change that is reported was made. */
    method Run(script: seq<(Operation, Env)>) returns (files: seq<File>, done: seq<bool>)
      modifies this
      ensures IsRun(script, files, done) && files[0] == old(file) && files[|script|] == file
      ensures forall k :: 0 <= k < |script| ==> Performed(script[k], files[k], files[k + 1], done[k])
    {
      files, done := [file], [];
      for i := 0 to |script|
        invariant |files| == i + 1 && |done| == i && files[0] == old(file) && files[i] == file
        invariant forall k :: 0 <= k < i ==> Performed(script[k], files[k], files[k + 1], done[k])
      {
        var d := Operate(script[i].0, script[i].1);
        files, done := files + [file], done + [d];
      }
    }
  }

  /** The checks of Delete and the users that remain. */
  method DeleteChecks(users: seq<User>, name: string) returns (error: Option<Error>, rest: seq<User>)
    requires UsersOk(users) && NonZero(users)
    ensures error == DeleteError(users, name)
    ensures error.None? ==> rest == Without(users, IndexOf(users, name)) && Normal(rest) == rest
    ensures error.None? ==> OwnerMoves(users, rest, None) && UsersOk(rest)
  {
    rest := users;
    var index := UserIndex(users, name);
    if index < 0 {
      return Some(NotFound), rest;
    }
    if users[index].owner {
      return Some(SystemAccount), rest;
    }
    rest := users[..index] + users[index + 1..];
    WithoutIs(users, index);
    var admins := EnabledAdminCount(rest);
    if admins == 0 {
      return Some(LastAdmin), rest;
    }
    RemoveOk(users, index);
    NormalSame(rest);
    error := None;
  }

  /** What Update decides: why it refuses, or what becomes of which user. */
  method UpdateChoice(users: seq<User>, actor: string, name: string, p: Patch)
    returns (error: Option<Error>, index: int, user: User)
    requires users != []
    ensures error == UpdateError(users, actor, name, p)
    ensures error.None? ==> 0 <= index == IndexOf(users, name) && user == Patched(users[index], p)
  {
    user := users[0];
    index := UserIndex(users, name);
    if index < 0 {
      return Some(NotFound), index, user;
    }
    error := UpdateChecks(users, index, actor, name, p);
    if error.Some? {
      return;
    }
    user := Patched(users[index], p);
    if user != users[index] {
      var admins := EnabledAdminCount(users[index := user]);
      if admins == 0 {
        error := Some(LastAdmin);
      }
    }
  }

  /** The checks of Update before it changes anything. */
  method UpdateChecks(users: seq<User>, index: int, actor: string, name: string, p: Patch)
    returns (error: Option<Error>)
    requires 0 <= index == IndexOf(users, name)
    ensures error.Some? ==> UpdateError(users, actor, name, p) == error
    ensures error.None? ==> UpdateError(users, actor, name, p) == AdminError(users, index, p)
  {
    var user := users[index];
    if p.name.Some? {
      if !ValidName(p.name.value) {
        return Some(Invalid);
      }
      var taken := UserIndex(users, p.name.value);
      if p.name.value != name && taken >= 0 {
        return Some(Exists);
      }
    }
    if user.owner && p.name.Some? && p.name.value != name && actor != name {
      return Some(SystemRename);
    }
    if p.role.Some? && !ValidRole(p.role.value) {
      return Some(Invalid);
    }
    if actor == name && user.role == Admin && Lowers(p) {
      return Some(SelfModification);
    }
    if user.owner && Lowers(p) {
      return Some(SystemAccount);
    }
    return None;
  }

  function AdminError(users: seq<User>, i: nat, p: Patch): Option<Error>
    requires i < |users|
  {
    if Patched(users[i], p) != users[i] && !HasAdmin(users[i := Patched(users[i], p)]) then Some(LastAdmin) else None
  }

  function DeleteError(users: seq<User>, name: string): Option<Error> {
    var i := IndexOf(users, name);
    if i < 0 then Some(NotFound)
    else if users[i].owner then Some(SystemAccount)
    else if !HasAdmin(Without(users, i)) then Some(LastAdmin)
    else None
  }

  // -------------------------------------------------- when they refuse, and why

  /** User `i` is the one of that name. */
  predicate Named(users: seq<User>, name: string, i: nat) {
    i < |users| && users[i].name == name
  }

  /** The patch gives user `i` a name that is not valid. */
  predicate BadName(p: Patch) {
    p.name.Some? && !ValidName(p.name.value)
  }

  /** Somebody else has the name that the patch gives user `i`. */
  predicate Taken(users: seq<User>, i: nat, p: Patch) {
    p.name.Some? && exists k :: 0 <= k < |users| && k != i && users[k].name == p.name.value
  }

  /** Somebody else renames the device owner. */
  predicate OwnerRenamed(u: User, actor: string, p: Patch) {
    u.owner && p.name != None && p.name != Some(u.name) && actor != u.name
  }

  predicate BadRole(p: Patch) {
    p.role.Some? && p.role.value != Admin && p.role.value != Plain
  }

  /** The patch takes rights away: no administrator, or disabled. */
  predicate TakesRights(p: Patch) {
    p.role !in {None, Some(Admin)} || p.enabled == Some(false)
  }

  /** With the patch no user is an enabled administrator. */
  predicate LastAdminGoes(users: seq<User>, i: nat, p: Patch)
    requires i < |users|
  {
    var role := if p.role.Some? then p.role.value else users[i].role;
    var enabled := if p.enabled.Some? then p.enabled.value else users[i].enabled;
    && !(role == Admin && enabled)
    && forall k :: 0 <= k < |users| && k != i ==> !(users[k].role == Admin && users[k].enabled)
  }

  /** An update is accepted if and only if the account exists; the new name is
      valid and free, and the device owner's only if it renames itself; the role
      is valid; no administrator takes its own rights and nobody those of the
      device owner; and an enabled administrator is left. */
  lemma UpdateAccepted(users: seq<User>, actor: string, name: string, p: Patch)
    requires UsersOk(users)
    ensures UpdateError(users, actor, name, p).None? <==>
            exists i: nat :: Named(users, name, i)
              && !BadName(p) && !Taken(users, i, p) && !OwnerRenamed(users[i], actor, p) && !BadRole(p)
              && !(TakesRights(p) && (users[i].owner || (actor == name && users[i].role == Admin)))
              && !LastAdminGoes(users, i, p)
  {
    if i: nat :| Named(users, name, i) {
      UpdateRefused(users, actor, name, p, i);
    } else {
      var k := IndexOf(users, name);
      assert k >= 0 ==> Named(users, name, k);
    }
  }

  /** And otherwise it is refused for the first of these reasons that holds. */
  lemma UpdateRefused(users: seq<User>, actor: string, name: string, p: Patch, i: nat)
    requires UsersOk(users) && Named(users, name, i)
    ensures var u := users[i];
      UpdateError(users, actor, name, p) ==
      if BadName(p) then Some(Invalid)
      else if Taken(users, i, p) then Some(Exists)
      else if OwnerRenamed(u, actor, p) then Some(SystemRename)
      else if BadRole(p) then Some(Invalid)
      else if TakesRights(p) && actor == name && u.role == Admin then Some(SelfModification)
      else if TakesRights(p) && u.owner then Some(SystemAccount)
      else if LastAdminGoes(users, i, p) then Some(LastAdmin)
      else None
  {
    IndexIs(users, name, i);
    if p.name.Some? {
      TakenMeans(users, i, p);
    }
    assert Lowers(p) <==> TakesRights(p);
    AdminLeft(users, i, p);
  }

  lemma TakenMeans(users: seq<User>, i: nat, p: Patch)
    requires UniqueNames(users) && i < |users| && p.name.Some?
    ensures Taken(users, i, p) <==> p.name.value != users[i].name && IndexOf(users, p.name.value) >= 0
  {
    var k := IndexOf(users, p.name.value);
    assert Taken(users, i, p) ==> k >= 0;
  }

  lemma AdminLeft(users: seq<User>, i: nat, p: Patch)
    requires HasAdmin(users) && i < |users|
    ensures AdminError(users, i, p).Some? <==> LastAdminGoes(users, i, p)
  {
    var users' := users[i := Patched(users[i], p)];
    if k :| 0 <= k < |users'| && IsAdmin(users'[k]) {
      assert k != i ==> users[k].role == Admin && users[k].enabled;
      if Patched(users[i], p) == users[i] {
        assert users' == users;
      }
    } else {
      assert !IsAdmin(users'[i]);
      forall k | 0 <= k < |users| && k != i ensures !(users[k].role == Admin && users[k].enabled) {
        assert !IsAdmin(users'[k]);
      }
      assert Patched(users[i], p) == users[i] ==> users' == users;
    }
  }

  /** An account can be deleted if and only if it exists, is not the device
      owner's, and leaves an enabled administrator. */
  lemma DeleteAccepted(users: seq<User>, name: string)
    requires UsersOk(users)
    ensures DeleteError(users, name).None? <==>
            exists i: nat :: Named(users, name, i) && !users[i].owner
              && exists k :: 0 <= k < |users| && k != i && users[k].role == Admin && users[k].enabled
  {
    if i: nat :| Named(users, name, i) {
      DeleteRefused(users, name, i);
    } else {
      var k := IndexOf(users, name);
      assert k >= 0 ==> Named(users, name, k);
    }
  }

  lemma DeleteRefused(users: seq<User>, name: string, i: nat)
    requires UsersOk(users) && Named(users, name, i)
    ensures DeleteError(users, name) ==
      if users[i].owner then Some(SystemAccount)
      else if forall k :: 0 <= k < |users| && k != i ==>
          !(users[k].role == Admin && users[k].enabled) then Some(LastAdmin)
      else None
  {
    IndexIs(users, name, i);
    var rest := Without(users, i);
    if k :| 0 <= k < |rest| && IsAdmin(rest[k]) {
      assert users[if k < i then k else k + 1] == rest[k];
    } else {
      forall k | 0 <= k < |users| && k != i ensures !(users[k].role == Admin && users[k].enabled) {
        assert !IsAdmin(rest[if k < i then k else k - 1]);
      }
    }
  }

  /** What an update that is reported as a change has done: the fields that the
      patch names, and the version; all else is as it was. */
  lemma UpdatedMeans(users: seq<User>, actor: string, name: string, p: Patch, u: User, f: File, i: nat)
    requires UsersOk(users) && Named(users, name, i) && Updated(users, actor, name, p, u, true, f)
    ensures f.Stored? && |f.db.users| == |users| && f.db.users[i] == u
    ensures forall k :: 0 <= k < |users| && k != i ==> f.db.users[k] == users[k]
    ensures u.name == (if p.name.Some? then p.name.value else name)
    ensures u.role == (if p.role.Some? then p.role.value else users[i].role)
    ensures u.enabled == (if p.enabled.Some? then p.enabled.value else users[i].enabled)
    ensures u.hash == users[i].hash && u.mustChange == users[i].mustChange && u.owner == users[i].owner
    ensures u.version == Next(users[i].version)
  {
    IndexIs(users, name, i);
  }

  // ------------------------------------------------- what the operations report

  /** `f` holds `users` with the user of that name replaced by `u`. */
  predicate Holds(users: seq<User>, name: string, u: User, f: File) {
    var i := IndexOf(users, name);
    i >= 0 && f.Stored? && f.db.users == users[i := u]
  }

  predicate Updated(users: seq<User>, actor: string, name: string, p: Patch, u: User, changed: bool, f: File) {
    var i := IndexOf(users, name);
    && UpdateError(users, actor, name, p).None? && i >= 0 && changed == (Patched(users[i], p) != users[i])
    && if changed then u == Patched(users[i], p).(version := Next(users[i].version)) && Holds(users, name, u, f)
       else u == users[i] && Current(f, users)
  }

  predicate Deleted(users: seq<User>, name: string, f: File) {
    var i := IndexOf(users, name);
    DeleteError(users, name).None? && i >= 0 && f.Stored? && f.db.users == Without(users, i)
  }

  predicate PasswordSet(users: seq<User>, name: string, hash: string, u: User, f: File) {
    var i := IndexOf(users, name);
    i >= 0 && u == users[i].(hash := hash, mustChange := false, version := Next(users[i].version))
        && Holds(users, name, u, f)
  }

  predicate Revoked(users: seq<User>, name: string, u: User, f: File) {
    var i := IndexOf(users, name);
    i >= 0 && u == users[i].(version := Next(users[i].version)) && Holds(users, name, u, f)
  }

  predicate Upgraded(users: seq<User>, name: string, checkedHash: string, newHash: string, u: User, f: File) {
    var i := IndexOf(users, name);
    i >= 0 && users[i].enabled && users[i].hash == checkedHash && u == users[i].(hash := newHash)
        && Holds(users, name, u, f)
  }

  /** Every change that is reported makes the account's old token invalid, and
      every token of another name is accepted as before. */
  lemma ChangeRevokes(users: seq<User>, name: string, u: User, f: File)
    requires UniqueNames(users) && NonZero(users) && Holds(users, name, u, f) && UniqueNames(f.db.users)
    requires u.version == Next(users[IndexOf(users, name)].version)
    ensures forall v :: Accepts(users, name, v) ==> !Accepts(f.db.users, name, v)
    ensures forall n, v :: n != name && n != u.name ==> (Accepts(f.db.users, n, v) <==> Accepts(users, n, v))
    ensures u.enabled <==> Accepts(f.db.users, u.name, u.version)
  {
    var i := IndexOf(users, name);
    ReplaceTokens(users, i, u);
  }

  lemma UpdateRevokes(users: seq<User>, actor: string, name: string, p: Patch, u: User, f: File)
    requires UniqueNames(users) && NonZero(users) && Updated(users, actor, name, p, u, true, f)
        && UniqueNames(f.db.users)
    ensures forall v :: Accepts(users, name, v) ==> !Accepts(f.db.users, name, v)
    ensures forall n, v :: n != name && n != u.name ==> (Accepts(f.db.users, n, v) <==> Accepts(users, n, v))
  {
    ChangeRevokes(users, name, u, f);
  }

  lemma PasswordRevokes(users: seq<User>, name: string, hash: string, u: User, f: File)
    requires UniqueNames(users) && NonZero(users)
    requires PasswordSet(users, name, hash, u, f) || Revoked(users, name, u, f)
    requires UniqueNames(f.db.users)
    ensures forall v :: Accepts(users, name, v) ==> !Accepts(f.db.users, name, v)
    ensures forall n, v :: n != name ==> (Accepts(f.db.users, n, v) <==> Accepts(users, n, v))
  {
    ChangeRevokes(users, name, u, f);
  }

  lemma DeleteRevokes(users: seq<User>, name: string, f: File)
    requires UniqueNames(users) && Deleted(users, name, f)
    ensures forall v :: !Accepts(f.db.users, name, v)
    ensures forall n, v :: n != name ==> (Accepts(f.db.users, n, v) <==> Accepts(users, n, v))
  {
    RemoveTokens(users, IndexOf(users, name), 0);
    forall v ensures !Accepts(f.db.users, name, v) {
      RemoveTokens(users, IndexOf(users, name), v);
    }
  }

  /** The upgrade of a stored password changes no token. */
  lemma UpgradeKeepsTokens(users: seq<User>, name: string, checkedHash: string, newHash: string, u: User, f: File)
    requires Upgraded(users, name, checkedHash, newHash, u, f)
    ensures forall n, v :: Accepts(f.db.users, n, v) <==> Accepts(users, n, v)
  {
    forall n ensures IndexOf(f.db.users, n) == IndexOf(users, n) {
      var k := IndexOf(users, n);
      if k >= 0 {
        IndexIs(f.db.users, n, k);
      } else {
        IndexNone(f.db.users, n, |users|);
      }
    }
  }

  // -------------------------------------------------------------------- scripts

  datatype Operation =
    | Creating(name: string, passwordOk: bool, role: Role, hash: Option<string>, token: Option<Token>)
    | Updating(actor: string, name: string, patch: Patch)
    | Deleting(actor: string, name: string)
    | SettingPassword(name: string, passwordOk: bool, hash: Option<string>, accept: User -> bool, hook: Option<bool>)
    | Revoking(name: string)
    | LookingUp(name: string)
    | Upgrading(name: string, checkedHash: string, newHash: string)
    | Validating(name: string, version: u64)

  /** Who may give the device owner another name by the operation. */
  function ActorOf(o: Operation): Option<string> {
    if o.Updating? && o.actor == o.name then Some(o.actor) else None
  }

  /** A change that was reported is in the file. */
  predicate Reported(o: Operation, e: Env, f: File, f': File, done: bool) {
    done ==>
      && Loaded(f, e).Some?
      && var users := Loaded(f, e).value;
      match o
      case Creating(name, _, role, hash, token) =>
        && IndexOf(users, name) < 0 && hash.Some? && token.Some? && f'.Stored?
        && f'.db.users == users + [User(name, hash.value, role, true, token.value, false, false)]
      case Updating(actor, name, patch) => UpdateReported(users, actor, name, patch, f')
      case Deleting(_, name) => Deleted(users, name, f')
      case SettingPassword(name, _, hash, _, _) => hash.Some? && PasswordReported(users, name, hash.value, f')
      case Revoking(name) => RevokeReported(users, name, f')
      case Upgrading(name, checkedHash, newHash) => UpgradeReported(users, name, checkedHash, newHash, f')
      case _ => false
  }

  /** The operation changes these users. */
  predicate Changes(o: Operation, users: seq<User>) {
    match o
    case Creating(name, passwordOk, role, hash, token) =>
      && ValidName(name) && passwordOk && ValidRole(role) && hash.Some? && hash.value != "" && token.Some?
      && IndexOf(users, name) < 0
    case Updating(actor, name, patch) =>
      && UpdateError(users, actor, name, patch).None?
      && Patched(users[IndexOf(users, name)], patch) != users[IndexOf(users, name)]
    case Deleting(actor, name) => actor != name && DeleteError(users, name).None?
    case SettingPassword(name, passwordOk, hash, accept, hook) =>
      && passwordOk && hash.Some? && hash.value != "" && hook != Some(false)
      && IndexOf(users, name) >= 0 && accept(users[IndexOf(users, name)])
    case Revoking(name) => IndexOf(users, name) >= 0
    case Upgrading(name, checkedHash, newHash) =>
      && newHash != "" && IndexOf(users, name) >= 0
      && users[IndexOf(users, name)].enabled && users[IndexOf(users, name)].hash == checkedHash
    case _ => false
  }

  /** While the disk works, a change is reported exactly if there is one to make. */
  ghost predicate Decided(o: Operation, e: Env, f: File, done: bool) {
    Usable(f, e) ==> done == Changes(o, Loaded(f, e).value)
  }

  /** What one operation of a script does. */
  ghost predicate Performed(o: (Operation, Env), f: File, f': File, done: bool) {
    Kept(f, f', ActorOf(o.0)) && Reported(o.0, o.1, f, f', done) && Decided(o.0, o.1, f, done)
  }

  /** The user that a changing operation left in the file. */
  function ChangedUser(users: seq<User>, name: string, f': File): Option<User> {
    var i := IndexOf(users, name);
    if i >= 0 && f'.Stored? && i < |f'.db.users| then Some(f'.db.users[i]) else None
  }

  predicate UpdateReported(users: seq<User>, actor: string, name: string, patch: Patch, f': File) {
    var u := ChangedUser(users, name, f');
    u.Some? && Updated(users, actor, name, patch, u.value, true, f')
  }

  predicate PasswordReported(users: seq<User>, name: string, hash: string, f': File) {
    var u := ChangedUser(users, name, f');
    u.Some? && PasswordSet(users, name, hash, u.value, f')
  }

  predicate RevokeReported(users: seq<User>, name: string, f': File) {
    var u := ChangedUser(users, name, f');
    u.Some? && Revoked(users, name, u.value, f')
  }

  predicate UpgradeReported(users: seq<User>, name: string, checkedHash: string, newHash: string, f': File) {
    var u := ChangedUser(users, name, f');
    u.Some? && Upgraded(users, name, checkedHash, newHash, u.value, f')
  }

  ghost predicate IsRun(script: seq<(Operation, Env)>, files: seq<File>, done: seq<bool>) {
    && |done| == |script|
    && History(files, seq(|script|, i requires 0 <= i < |script| => ActorOf(script[i].0)))
    && forall i :: 0 <= i < |script| ==> Reported(script[i].0, script[i].1, files[i], files[i + 1], done[i])
  }

  /** What ValidateToken answers. */
  predicate TokenAccepted(f: File, e: Env, name: string, version: u64) {
    Loaded(f, e).Some? && Accepts(Loaded(f, e).value, name, version)
  }

  /** The operation is to end the sessions of an account. */
  predicate EndsSessions(o: Operation, name: string) {
    match o
    case Updating(_, n, _) => n == name
    case Deleting(_, n) => n == name
    case SettingPassword(n, _, _, _, _) => n == name
    case Revoking(n) => n == name
    case _ => false
  }

  /** A reported change ends exactly the sessions it is to end. */
  lemma ReportedTokens(o: Operation, e: Env, f: File, f': File, name: string, v: u64)
    requires Reported(o, e, f, f', true) && UniqueNames(Loaded(f, e).value) && NonZero(Loaded(f, e).value)
    requires f'.Stored? && UniqueNames(f'.db.users)
    ensures var users := Loaded(f, e).value;
      Accepts(users, name, v) ==> (Accepts(f'.db.users, name, v) <==> !EndsSessions(o, name))
  {
    var users := Loaded(f, e).value;
    match o
    case Creating(n, _, role, hash, token) =>
      if Accepts(users, name, v) {
        CreateKeepsTokens(users, User(n, hash.value, role, true, token.value, false, false), name, v);
      }
    case Updating(actor, n, patch) => UpdateRevokes(users, actor, n, patch, ChangedUser(users, n, f').value, f');
    case Deleting(_, n) => DeleteRevokes(users, n, f');
    case SettingPassword(n, _, hash, _, _) =>
      PasswordRevokes(users, n, hash.value, ChangedUser(users, n, f').value, f');
    case Revoking(n) => PasswordRevokes(users, n, "", ChangedUser(users, n, f').value, f');
    case Upgrading(n, checked, hash) =>
        UpgradeKeepsTokens(users, n, checked, hash, ChangedUser(users, n, f').value, f');
    case _ =>
  }

  /** In a run of any script, a token that was accepted before a reported change
      is still accepted after it if and only if the change was not to end the
      sessions of its account. */
  lemma RunRevokes(script: seq<(Operation, Env)>, files: seq<File>, done: seq<bool>, i: nat, name: string, v: u64,
                   e: Env)
    requires IsRun(script, files, done) && i < |script| && done[i]
    requires TokenAccepted(files[i], script[i].1, name, v)
    ensures TokenAccepted(files[i + 1], e, name, v) <==> !EndsSessions(script[i].0, name)
  {
    var o, before, f, f' := script[i].0, script[i].1, files[i], files[i + 1];
    assert Reported(o, before, f, f', done[i]) && Kept(f, f', ActorOf(o));
    LoadedOk(f, before);
    ReportedLoads(o, before, f, f', e);
    ReportedTokens(o, before, f, f', name, v);
  }

  /** After a reported change the file is loaded as it is. */
  lemma ReportedLoads(o: Operation, before: Env, f: File, f': File, e: Env)
    requires Reported(o, before, f, f', true) && Kept(f, f', ActorOf(o))
    ensures f'.Stored? && Loaded(f', e) == Some(f'.db.users) && UniqueNames(f'.db.users)
  {
    LoadedOk(f, before);
    assert NonZero(f'.db.users);
    NormalSame(f'.db.users);
  }

  /** A new account takes no session of another. */
  lemma CreateKeepsTokens(users: seq<User>, u: User, name: string, v: u64)
    requires UniqueNames(users + [u]) && Accepts(users, name, v)
    ensures Accepts(users + [u], name, v)
  {
    var i := IndexOf(users, name);
    assert (users + [u])[i] == users[i];
    IndexIs(users + [u], name, i);
  }

  /** What a load gives is valid. */
  lemma LoadedOk(f: File, e: Env)
    requires Loaded(f, e).Some?
    ensures UniqueNames(Loaded(f, e).value) && NonZero(Loaded(f, e).value)
  {
    if f.Stored? {
      NormalOk(f.db.users);
    }
  }

  // ------------------------------------------------------------ whole histories

  /** A history of the file: each operation keeps what it has to keep. */
  ghost predicate History(files: seq<File>, actors: seq<Option<string>>) {
    && |files| == |actors| + 1
    && forall i :: 0 <= i < |actors| ==> Kept(files[i], files[i + 1], actors[i])
  }

  /** Over every history the file is as it was or a valid database: different
      names, an enabled administrator, at most one owner, who is an enabled
      administrator, and a mirror of the right account. Once there is an owner
      there always is, with the same name unless the owner itself renames it. */
  lemma {:induction false} HistoryKeeps(files: seq<File>, actors: seq<Option<string>>, n: nat)
    requires History(files, actors) && n < |files|
    ensures files[n] == files[0] || (files[n].Stored? && WellFormed(files[n].db))
    ensures OwnerOf(files[0]).Some? ==> OwnerOf(files[n]).Some?
    ensures OwnerOf(files[0]).Some? && (forall i :: 0 <= i < n ==> actors[i] != OwnerOf(files[i])) ==>
        OwnerOf(files[n]) == OwnerOf(files[0])
    ensures files[0].Stored? && OwnerOf(files[0]).None? ==> OwnerOf(files[n]).None?
    decreases n
  {
    if n > 0 {
      HistoryKeeps(files, actors, n - 1);
      assert Kept(files[n - 1], files[n], actors[n - 1]);
    }
  }

  /** The owner that a valid database names is one enabled administrator. */
  lemma OneEnabledOwner(db: Database)
    requires WellFormed(db) && OwnerOf(Stored(db)).Some?
    ensures exists i :: 0 <= i < |db.users| && db.users[i].owner && IsAdmin(db.users[i])
                        && Some(db.users[i].name) == OwnerOf(Stored(db))
                        && (forall k :: 0 <= k < |db.users| && k != i ==> !db.users[k].owner)
                        && db.legacyName == db.users[i].name && db.legacyHash == db.users[i].hash
  {
    var i := OwnerIndex(db.users, |db.users|);
    NoOwner(db.users, |db.users|);
    assert UserOk(db.users[i]);
    var m :| Mirrored(db.users, m) && db.legacyName == db.users[m].name && db.legacyHash == db.users[m].hash;
    forall k | 0 <= k < |db.users| && k != i ensures !db.users[k].owner {
      assert !(k < i && db.users[k].owner) && !(i < k && db.users[k].owner);
    }
    assert m == i;
  }
}
