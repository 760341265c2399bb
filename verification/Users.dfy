/** `users.rs`: the in-memory user store and the key directory it mirrors. The directory maps file
    names to contents. HMAC is a parameter; randomness and the listing order are parameters too. */
module Users {
  import opened Bytes
  import opened Hex

  type Key = Bytes32

  datatype Store = Store(users: map<Key, string>, dir: map<string, string>)

  // ----- File names -----

  /** The position of the last dot, or the length if there is none. */
  function LastDot(f: string): (r: nat)
    ensures r <= |f|
    ensures r < |f| ==> f[r] == '.'
    ensures forall i :: r < i < |f| ==> f[i] != '.'
    ensures r == |f| ==> '.' !in f
  {
    if f == "" then 0
    else if f[|f| - 1] == '.' then |f| - 1
    else
      var r := LastDot(f[..|f| - 1]);
      if r == |f| - 1 then |f| else r
  }

  /** `Path::extension() == Some("key")`: a file that starts with its only dot has no extension. */
  predicate IsKeyFile(f: string) {
    var dot := LastDot(f);
    0 < dot < |f| && f[dot + 1..] == "key"
  }

  /** `Path::file_stem()` of a file that has an extension. */
  function Stem(f: string): string { f[..LastDot(f)] }

  function KeyFile(name: string): string { name + ".key" }

  lemma KeyFileNames(name: string)
    ensures IsKeyFile(KeyFile(name)) <==> name != ""
    ensures Stem(KeyFile(name)) == name
  {
    var f := KeyFile(name);
    assert f[|name|] == '.' && f[|name| + 1] == 'k' && f[|name| + 2] == 'e' && f[|name| + 3] == 'y';
    assert LastDot(f) == |name|;
    assert f[|name| + 1..] == "key" && f[..|name|] == name;
  }

  /** Key files are the files `name.key` with a name that is not empty. */
  lemma KeyFilesAreNamed(f: string)
    ensures IsKeyFile(f) <==> |f| > 4 && f[|f| - 4..] == ".key"
  {
    if |f| > 4 && f[|f| - 4..] == ".key" {
      assert f == KeyFile(f[..|f| - 4]);
      KeyFileNames(f[..|f| - 4]);
    }
    if IsKeyFile(f) {
      StemNames(f);
    }
  }

  lemma StemNames(f: string)
    requires IsKeyFile(f)
    ensures KeyFile(Stem(f)) == f && Stem(f) != ""
  {
    var dot := LastDot(f);
    assert f == f[..dot] + [f[dot]] + f[dot + 1..];
  }

  // ----- Loading -----

  /** `load` over one listing of the directory. A duplicate key is skipped; a bad file fails it all. */
  function LoadFrom(dir: map<string, string>, listing: seq<string>): Option<map<Key, string>>
    requires forall f :: f in listing ==> f in dir
  {
    if listing == [] then Some(map[])
    else
      var f := listing[|listing| - 1];
      match LoadFrom(dir, listing[..|listing| - 1])
      case None => None
      case Some(users) =>
        if !IsKeyFile(f) then Some(users)
        else
          match ParseKey(dir[f])
          case None => None
          case Some(key) => Some(if key in users then users else users[key := Stem(f)])
  }

  method Load(dir: map<string, string>, listing: seq<string>) returns (r: Option<map<Key, string>>)
    requires forall f :: f in listing ==> f in dir
    ensures r == LoadFrom(dir, listing)
  {
    var users: map<Key, string> := map[];
    for i := 0 to |listing|
      invariant LoadFrom(dir, listing[..i]) == Some(users)
    {
      assert listing[..i + 1][..i] == listing[..i];
      var f := listing[i];
      if !IsKeyFile(f) {
        continue;
      }
      var psk := ParseHex(dir[f]);
      if psk.None? {
        FailedLoad(dir, listing, i + 1);
        return None;
      }
      if psk.value in users {
        continue;
      }
      users := users[psk.value := Stem(f)];
    }
    assert listing[..|listing|] == listing;
    r := Some(users);
  }

  lemma {:induction false} FailedLoad(dir: map<string, string>, listing: seq<string>, n: nat)
    requires (forall f :: f in listing ==> f in dir) && n <= |listing| && LoadFrom(dir, listing[..n]).None?
    ensures LoadFrom(dir, listing).None?
    decreases |listing|
  {
    if n == |listing| {
      assert listing[..n] == listing;
    } else {
      assert listing[..|listing| - 1][..n] == listing[..n];
      FailedLoad(dir, listing[..|listing| - 1], n);
    }
  }

  /** Every file of the directory, once. */
  ghost predicate IsListing(dir: map<string, string>, listing: seq<string>) {
    && (forall f :: f in listing <==> f in dir)
    && (forall i, j :: 0 <= i < j < |listing| ==> listing[i] != listing[j])
  }

  /** Memory and disk agree: every key file holds the key of the user it is named after, and every
      user in memory has a key file. */
  predicate Synced(s: Store) {
    && (forall f :: f in s.dir && IsKeyFile(f) ==>
          ParseKey(s.dir[f]).Some? && ParseKey(s.dir[f]).value in s.users
          && s.users[ParseKey(s.dir[f]).value] == Stem(f))
    && (forall k :: k in s.users ==>
          s.users[k] != "" && KeyFile(s.users[k]) in s.dir && ParseKey(s.dir[KeyFile(s.users[k])]) == Some(k))
  }

  /** The users a partial listing accounts for. */
  predicate LoadedSoFar(s: Store, listing: seq<string>, users: map<Key, string>) {
    && (forall k :: k in users ==> k in s.users && users[k] == s.users[k])
    && (forall k :: k in s.users ==> (k in users <==> KeyFile(s.users[k]) in listing))
  }

  lemma LoadOneMore(s: Store, listing: seq<string>, users: map<Key, string>, f: string)
    requires Synced(s) && LoadedSoFar(s, listing, users) && f in s.dir && f !in listing
    ensures IsKeyFile(f) ==> ParseKey(s.dir[f]).Some?
    ensures LoadedSoFar(s, listing + [f],
              if !IsKeyFile(f) then users else users[ParseKey(s.dir[f]).value := Stem(f)])
    ensures IsKeyFile(f) ==> ParseKey(s.dir[f]).value !in users
  {
    if IsKeyFile(f) {
      var key := ParseKey(s.dir[f]).value;
      StemNames(f);
      forall k | k in s.users && KeyFile(s.users[k]) == f ensures k == key {
      }
    } else {
      forall k | k in s.users ensures KeyFile(s.users[k]) != f {
        KeyFileNames(s.users[k]);
      }
    }
  }

  lemma {:induction false} LoadPrefix(s: Store, listing: seq<string>)
    requires Synced(s) && (forall f :: f in listing ==> f in s.dir)
    requires forall i, j :: 0 <= i < j < |listing| ==> listing[i] != listing[j]
    ensures var r := LoadFrom(s.dir, listing); r.Some? && LoadedSoFar(s, listing, r.value)
  {
    if listing == [] {
    } else {
      var front, f := listing[..|listing| - 1], listing[|listing| - 1];
      LoadPrefix(s, front);
      LoadOneMore(s, front, LoadFrom(s.dir, front).value, f);
      assert listing == front + [f];
    }
  }

  /** If memory and disk agree, loading the directory in any order rebuilds exactly the memory. */
  lemma LoadRebuilds(s: Store, listing: seq<string>)
    requires Synced(s) && IsListing(s.dir, listing)
    ensures LoadFrom(s.dir, listing) == Some(s.users)
  {
    LoadPrefix(s, listing);
    AllLoaded(s, listing, LoadFrom(s.dir, listing).value);
  }

  lemma AllLoaded(s: Store, listing: seq<string>, users: map<Key, string>)
    requires LoadedSoFar(s, listing, users)
    requires forall k :: k in s.users ==> KeyFile(s.users[k]) in listing
    ensures users == s.users
  {
    assert forall k :: k in s.users ==> k in users;
  }

  /** Usernames are unique. */
  lemma UsernamesAreUnique(s: Store, k1: Key, k2: Key)
    requires Synced(s) && k1 in s.users && k2 in s.users && s.users[k1] == s.users[k2]
    ensures k1 == k2
  {
  }

  // ----- Starting from a directory -----

  /** Every key file parses, and no two hold the same key. */
  predicate DistinctKeys(dir: map<string, string>) {
    && (forall f :: f in dir && IsKeyFile(f) ==> ParseKey(dir[f]).Some?)
    && (forall f, g :: f in dir && g in dir && IsKeyFile(f) && IsKeyFile(g) && f != g ==> ParseKey(dir[f]) != ParseKey(dir[g]))
  }

  /** What the first entries of a listing have put into memory. */
  predicate Mirrors(dir: map<string, string>, listing: seq<string>, users: map<Key, string>)
    requires forall f :: f in listing ==> f in dir
  {
    && (forall f :: f in listing && IsKeyFile(f) ==>
          ParseKey(dir[f]).Some? && ParseKey(dir[f]).value in users && users[ParseKey(dir[f]).value] == Stem(f))
    && (forall k :: k in users ==>
          users[k] != "" && KeyFile(users[k]) in listing && ParseKey(dir[KeyFile(users[k])]) == Some(k))
  }

  lemma {:induction false} LoadMirrors(dir: map<string, string>, listing: seq<string>)
    requires DistinctKeys(dir) && (forall f :: f in listing ==> f in dir)
    requires forall i, j :: 0 <= i < j < |listing| ==> listing[i] != listing[j]
    ensures var r := LoadFrom(dir, listing); r.Some? && Mirrors(dir, listing, r.value)
  {
    if listing == [] {
    } else {
      var front, f := listing[..|listing| - 1], listing[|listing| - 1];
      LoadMirrors(dir, front);
      var users := LoadFrom(dir, front).value;
      assert listing == front + [f];
      if IsKeyFile(f) {
        StemNames(f);
        var key := ParseKey(dir[f]).value;
        forall k | k in users ensures k != key && IsKeyFile(KeyFile(users[k])) {
          KeyFileNames(users[k]);
        }
      }
    }
  }

  /** Loading, in any order, gives a store in sync with the directory exactly when every key file
      parses and no two hold the same key. */
  lemma LoadIsSyncedIff(dir: map<string, string>, listing: seq<string>)
    requires IsListing(dir, listing)
    ensures DistinctKeys(dir) <==>
      LoadFrom(dir, listing).Some? && Synced(Store(LoadFrom(dir, listing).value, dir))
  {
    if DistinctKeys(dir) {
      LoadMirrors(dir, listing);
    } else if LoadFrom(dir, listing).Some? && Synced(Store(LoadFrom(dir, listing).value, dir)) {
      forall f | f in dir && IsKeyFile(f) ensures KeyFile(Stem(f)) == f {
        StemNames(f);
      }
    }
  }

  ghost function Loaded(dir: map<string, string>, listing: seq<string>): (s: Store)
    requires DistinctKeys(dir) && IsListing(dir, listing)
    ensures Synced(s) && s.dir == dir && LoadFrom(dir, listing) == Some(s.users)
  {
    LoadIsSyncedIff(dir, listing);
    Store(LoadFrom(dir, listing).value, dir)
  }

  /** Loading fails exactly if some key file does not parse. */
  lemma {:induction false} LoadFailsIff(dir: map<string, string>, listing: seq<string>)
    requires forall f :: f in listing ==> f in dir
    ensures LoadFrom(dir, listing).None? <==> exists f :: f in listing && IsKeyFile(f) && ParseKey(dir[f]).None?
  {
    if listing == [] {
    } else {
      var front, f := listing[..|listing| - 1], listing[|listing| - 1];
      LoadFailsIff(dir, front);
      assert listing == front + [f];
    }
  }

  /** File number i is the first of the listing to hold its key. */
  predicate FirstWithKey(dir: map<string, string>, listing: seq<string>, i: nat)
    requires i < |listing| && forall f :: f in listing ==> f in dir
  {
    && IsKeyFile(listing[i]) && ParseKey(dir[listing[i]]).Some?
    && forall j :: 0 <= j < i && IsKeyFile(listing[j]) ==> ParseKey(dir[listing[j]]) != ParseKey(dir[listing[i]])
  }

  /** If several files hold the same key, the first one listed names the user. */
  lemma {:induction false} FirstFileWins(dir: map<string, string>, listing: seq<string>, i: nat)
    requires i < |listing| && forall f :: f in listing ==> f in dir
    requires LoadFrom(dir, listing).Some? && FirstWithKey(dir, listing, i)
    ensures var users, key := LoadFrom(dir, listing).value, ParseKey(dir[listing[i]]).value;
      key in users && users[key] == Stem(listing[i])
    decreases |listing|
  {
    var front := listing[..|listing| - 1];
    if i < |front| {
      FirstFileWins(dir, front, i);
    } else {
      KeysAreFromFiles(dir, front);
    }
  }

  lemma {:induction false} KeysAreFromFiles(dir: map<string, string>, listing: seq<string>)
    requires (forall f :: f in listing ==> f in dir) && LoadFrom(dir, listing).Some?
    ensures forall k :: k in LoadFrom(dir, listing).value ==>
      exists j :: 0 <= j < |listing| && IsKeyFile(listing[j]) && ParseKey(dir[listing[j]]) == Some(k)
  {
    if listing == [] {
    } else {
      var front, last := listing[..|listing| - 1], |listing| - 1;
      KeysAreFromFiles(dir, front);
      var before := LoadFrom(dir, front).value;
      forall k | k in LoadFrom(dir, listing).value
        ensures exists j :: 0 <= j < |listing| && IsKeyFile(listing[j]) && ParseKey(dir[listing[j]]) == Some(k)
      {
        if k in before {
          var j :| 0 <= j < |front| && IsKeyFile(front[j]) && ParseKey(dir[front[j]]) == Some(k);
          assert listing[j] == front[j];
        } else {
          assert IsKeyFile(listing[last]) && ParseKey(dir[listing[last]]) == Some(k);
        }
      }
    }
  }

  // ----- Adding and removing -----

  datatype UserOp = AddOp(name: string, psk: Key) | RemoveOp(name: string)

  predicate HasUser(users: map<Key, string>, name: string) { exists k :: k in users && users[k] == name }

  function Without(users: map<Key, string>, name: string): map<Key, string> {
    map k | k in users && users[k] != name :: users[k]
  }

  function StepUsers(s: Store, op: UserOp): Store {
    match op
    case AddOp(name, psk) =>
      if HasUser(s.users, name) then s
      else Store(s.users[psk := name], s.dir[KeyFile(name) := Print(psk)])
    case RemoveOp(name) =>
      if !HasUser(s.users, name) then s
      else Store(Without(s.users, name), s.dir - {KeyFile(name)})
  }

  lemma OneOfThatName(s: Store, psk: Key, name: string)
    requires Synced(s) && psk in s.users && s.users[psk] == name
    ensures s.users - {psk} == Without(s.users, name)
  {
    forall k | k in s.users && s.users[k] == name ensures k == psk {
      UsernamesAreUnique(s, k, psk);
    }
  }

  /** Some stored key produces the MAC. */
  predicate Accepts(users: map<Key, string>, hmac: (Key, Bytes32) -> Bytes32, nonce: Bytes32, mac: Bytes32) {
    exists k :: k in users && hmac(k, nonce) == mac
  }

  class UserStore {
    var users: map<Key, string>
    var dir: map<string, string>

    ghost function State(): Store
      reads this
    {
      Store(users, dir)
    }

    constructor (initial: Store)
      ensures State() == initial
    {
      users, dir := initial.users, initial.dir;
    }

    /** `add_user` with the random key given; the result is the hex key, or none if the name is taken. */
    method AddUser(name: string, psk: Key) returns (hex: Option<string>)
      modifies this
      ensures State() == StepUsers(old(State()), AddOp(name, psk))
      ensures hex == if HasUser(old(users), name) then None else Some(Print(psk))
    {
      if k :| k in users && users[k] == name {
        return None;
      }
      hex := Some(Print(psk));
      dir := dir[KeyFile(name) := hex.value];
      users := users[psk := name];
    }

    /** `remove_user`: some key of that name is found and removed. While memory and disk agree,
        names are unique, so it is the only one. */
    method RemoveUser(name: string) returns (found: bool)
      modifies this
      ensures found <==> HasUser(old(users), name)
      ensures !found ==> State() == old(State())
      ensures found ==> dir == old(dir) - {KeyFile(name)}
      ensures found ==> exists k :: k in old(users) && old(users)[k] == name && users == old(users) - {k}
      ensures Synced(old(State())) ==> State() == StepUsers(old(State()), RemoveOp(name))
    {
      if psk :| psk in users && users[psk] == name {
        ghost var before := State();
        users := users - {psk};
        if KeyFile(name) in dir {
          dir := dir - {KeyFile(name)};
        }
        if Synced(before) {
          OneOfThatName(before, psk, name);
        }
        return true;
      }
      return false;
    }

    /** `verify`: try every key; any user whose key produces the MAC may be returned. */
    method Verify(hmac: (Key, Bytes32) -> Bytes32, nonce: Bytes32, mac: Bytes32) returns (user: Option<string>)
      ensures user.Some? <==> Accepts(users, hmac, nonce, mac)
      ensures user.Some? ==> exists k :: k in users && hmac(k, nonce) == mac && users[k] == user.value
    {
      var left := users.Keys;
      while left != {}
        invariant left <= users.Keys
        invariant forall k :: k in users && k !in left ==> hmac(k, nonce) != mac
        decreases |left|
      {
        var psk :| psk in left;
        if hmac(psk, nonce) == mac {
          return Some(users[psk]);
        }
        left := left - {psk};
      }
      return None;
    }
  }

  /** Adding a new name keeps memory and disk in step exactly when the random key is fresh and the
      name is not empty: a repeated key would displace its owner in memory only, and `.key` alone
      has no extension, so it would not be loaded again. */
  lemma AddStaysSyncedIff(s: Store, name: string, psk: Key)
    requires Synced(s) && !HasUser(s.users, name)
    ensures Synced(StepUsers(s, AddOp(name, psk))) <==> psk !in s.users && name != ""
  {
    var s' := StepUsers(s, AddOp(name, psk));
    KeyRoundTrip(psk);
    KeyFileNames(name);
    if psk in s.users && name != "" {
      var file := KeyFile(s.users[psk]);
      KeyFileNames(s.users[psk]);
      assert s'.users[psk] != Stem(file);
      assert file != KeyFile(name);
      assert file in s'.dir && IsKeyFile(file) && s'.dir[file] == s.dir[file];
    } else if psk !in s.users && name != "" {
      AddFreshStaysSynced(s, name, psk);
    }
  }

  lemma AddFreshStaysSynced(s: Store, name: string, psk: Key)
    requires Synced(s) && !HasUser(s.users, name) && psk !in s.users && name != ""
    ensures Synced(StepUsers(s, AddOp(name, psk)))
  {
    var s' := StepUsers(s, AddOp(name, psk));
    KeyRoundTrip(psk);
    KeyFileNames(name);
    forall k | k in s'.users
      ensures s'.users[k] != "" && KeyFile(s'.users[k]) in s'.dir && ParseKey(s'.dir[KeyFile(s'.users[k])]) == Some(k)
    {
      if k != psk {
        assert s.users[k] != name;
        KeyFileNames(s.users[k]);
      }
    }
  }

  lemma RemoveStaysSynced(s: Store, name: string)
    requires Synced(s)
    ensures Synced(StepUsers(s, RemoveOp(name)))
  {
    var s' := StepUsers(s, RemoveOp(name));
    if s' != s {
      forall f | f in s'.dir && IsKeyFile(f) ensures Stem(f) != name {
        StemNames(f);
      }
      forall k | k in s'.users ensures KeyFile(s'.users[k]) in s'.dir {
        KeyFileNames(s.users[k]);
        KeyFileNames(name);
      }
    }
  }

  /** An added user is there: under a free name and with a fresh key, its MAC is accepted, the
      directory loads with it, and nobody else has changed. */
  lemma AddedUserIsThere(s: Store, name: string, psk: Key, hmac: (Key, Bytes32) -> Bytes32, nonce: Bytes32,
                         again: seq<string>)
    requires Synced(s) && !HasUser(s.users, name) && psk !in s.users && name != ""
    requires IsListing(StepUsers(s, AddOp(name, psk)).dir, again)
    ensures var s' := StepUsers(s, AddOp(name, psk));
      && psk in s'.users && s'.users[psk] == name && s'.users - {psk} == s.users
      && Accepts(s'.users, hmac, nonce, hmac(psk, nonce))
      && LoadFrom(s'.dir, again) == Some(s'.users)
  {
    AddFreshStaysSynced(s, name, psk);
    LoadRebuilds(StepUsers(s, AddOp(name, psk)), again);
  }

  /** A removed user is gone: no key of that name is left, in memory or when the directory is loaded
      again, the MAC is accepted only if another user's key produces it, and nobody else has changed. */
  lemma RemovedUserIsGone(s: Store, psk: Key, hmac: (Key, Bytes32) -> Bytes32, nonce: Bytes32, again: seq<string>)
    requires Synced(s) && psk in s.users
    requires IsListing(StepUsers(s, RemoveOp(s.users[psk])).dir, again)
    ensures var s' := StepUsers(s, RemoveOp(s.users[psk]));
      && s'.users == s.users - {psk} && !HasUser(s'.users, s.users[psk])
      && (Accepts(s'.users, hmac, nonce, hmac(psk, nonce)) ==>
          exists k :: k in s.users && k != psk && hmac(k, nonce) == hmac(psk, nonce))
      && LoadFrom(s'.dir, again) == Some(s'.users)
  {
    var name := s.users[psk];
    assert HasUser(s.users, name);
    OneOfThatName(s, psk, name);
    RemoveStaysSynced(s, name);
    LoadRebuilds(StepUsers(s, RemoveOp(name)), again);
  }

  function RunUsers(s: Store, ops: seq<UserOp>): Store
    decreases |ops|
  {
    if ops == [] then s else RunUsers(StepUsers(s, ops[0]), ops[1..])
  }

  /** Added names are not empty and the random keys do not repeat. */
  predicate FreshOps(s: Store, ops: seq<UserOp>)
    decreases |ops|
  {
    ops == [] ||
    ((ops[0].AddOp? ==> ops[0].name != "" && ops[0].psk !in s.users) && FreshOps(StepUsers(s, ops[0]), ops[1..]))
  }

  lemma {:induction false} RunStaysSynced(s: Store, ops: seq<UserOp>)
    requires Synced(s) && FreshOps(s, ops)
    ensures Synced(RunUsers(s, ops))
    decreases |ops|
  {
    if ops == [] {
    } else {
      match ops[0] {
        case AddOp(name, psk) => if !HasUser(s.users, name) { AddFreshStaysSynced(s, name, psk); }
        case RemoveOp(name) => RemoveStaysSynced(s, name);
      }
      RunStaysSynced(StepUsers(s, ops[0]), ops[1..]);
    }
  }

  /** From a key directory with pairwise distinct keys, after any sequence of adds and removes, the
      memory is exactly what loading the directory again, in any order, would rebuild. */
  lemma MemoryMatchesDisk(dir: map<string, string>, listing: seq<string>, ops: seq<UserOp>, again: seq<string>)
    requires DistinctKeys(dir) && IsListing(dir, listing)
    requires FreshOps(Loaded(dir, listing), ops)
    requires IsListing(RunUsers(Loaded(dir, listing), ops).dir, again)
    ensures var s := RunUsers(Loaded(dir, listing), ops); LoadFrom(s.dir, again) == Some(s.users)
  {
    RunStaysSynced(Loaded(dir, listing), ops);
    LoadRebuilds(RunUsers(Loaded(dir, listing), ops), again);
  }
}
