/** Connection profiles: credentials held in maps by reference, the record they are stored as, and what a form
    submission does to the stored secrets. */
module Profile {
  import opened Common
  import opened StringMaps

  const ACCESS_KEY := "accessKey"
  const SECRET_KEY := "secretKey"
  const ROCKETMQ := "rocketmq"
  const NONE := "none"
  const ACL := "acl"

  /** The fields that storing, loading and editing credentials only carry along. */
  datatype Details = Details(id: int, name: string, group: string, timeoutSec: int, status: string, lastCheck: string,
                             isDefault: bool, remark: string)

  /** A profile with its maps read out; an absent map is not an empty one. */
  datatype Value = Value(details: Details, kind: string, endpoints: string, mechanism: string,
                         options: Option<map<string, string>>, secrets: Option<map<string, string>>)

  /** The fields of a record that only files from before broker kinds carry. */
  datatype Legacy = Legacy(nameServer: string, enableACL: bool, accessKey: string, secretKey: string)

  const NO_LEGACY := Legacy("", false, "", "")

  function Held(m: StringMap?): Option<map<string, string>>
    reads m
  {
    if m == null then None else Some(m.entries)
  }

  /** What a key reads as: an empty text when the map is absent or does not have it. */
  function Get(m: Option<map<string, string>>, key: string): string {
    if m.Some? && key in m.value then m.value[key] else ""
  }

  function Put(m: Option<map<string, string>>, key: string, value: string): Option<map<string, string>> {
    if value != "" then Some((if m.Some? then m.value else map[])[key := value])
    else if m.Some? then Some(m.value - {key})
    else None
  }

  lemma PutThenGet(m: Option<map<string, string>>, key: string, value: string)
    ensures forall other :: Get(Put(m, key, value), other) == if other == key then value else Get(m, other)
  {
  }

  predicate NoSecrets(m: Option<map<string, string>>) {
    m.None? || m.value == map[]
  }

  /** The pre-kind compatibility rules. */
  function Migrated(stored: Value, legacy: Legacy): Value {
    stored.(
      kind := if stored.kind == "" then ROCKETMQ else stored.kind,
      endpoints := if stored.endpoints == "" then legacy.nameServer else stored.endpoints,
      mechanism := if stored.mechanism != "" then stored.mechanism else if legacy.enableACL then ACL else NONE,
      secrets := if NoSecrets(stored.secrets)
                 then Put(Put(stored.secrets, ACCESS_KEY, legacy.accessKey), SECRET_KEY, legacy.secretKey)
                 else stored.secrets)
  }

  method CloneStringMap(source: StringMap?) returns (cloned: StringMap?)
    ensures cloned == null <==> source == null
    ensures cloned != null ==> fresh(cloned)
    ensures Held(cloned) == Held(source)
  {
    if source == null {
      cloned := null;
    } else {
      cloned := CopyEntries(source);
    }
  }

  class Profile {
    var details: Details
    var kind: string
    var endpoints: string
    var mechanism: string
    var options: StringMap?
    var secrets: StringMap?

    ghost function View(): Value
      reads this, options, secrets
    {
      Value(details, kind, endpoints, mechanism, Held(options), Held(secrets))
    }

    constructor (details: Details, kind: string, endpoints: string, mechanism: string, options: StringMap?,
                 secrets: StringMap?)
      ensures this.details == details && this.kind == kind && this.endpoints == endpoints && this.mechanism == mechanism
      ensures this.options == options && this.secrets == secrets
    {
      this.details, this.kind, this.endpoints, this.mechanism := details, kind, endpoints, mechanism;
      this.options, this.secrets := options, secrets;
    }

    method Secret(key: string) returns (value: string)
      ensures value == Get(Held(secrets), key)
    {
      value := if secrets != null && key in secrets.entries then secrets.entries[key] else "";
    }

    /** The map is created on first use and otherwise changed in place. */
    method SetSecret(key: string, value: string)
      modifies this`secrets, secrets
      ensures Held(secrets) == Put(old(Held(secrets)), key, value)
      ensures if old(secrets) != null then secrets == old(secrets) else secrets != null ==> fresh(secrets)
      ensures if value == "" then secrets == null || key !in secrets.entries
              else secrets != null && key in secrets.entries && secrets.entries[key] == value
    {
      if value == "" {
        if secrets != null {
          secrets.entries := secrets.entries - {key};
        }
        return;
      }
      if secrets == null {
        secrets := new StringMap(map[]);
      }
      secrets.entries := secrets.entries[key := value];
    }

    method SetOption(key: string, value: string)
      modifies this`options, options
      ensures Held(options) == Some((if old(options) == null then map[] else old(options.entries))[key := value])
      ensures if old(options) != null then options == old(options) else fresh(options)
    {
      if options == null {
        options := new StringMap(map[]);
      }
      options.entries := options.entries[key := value];
    }

    /** The mechanism and the key pair together: off leaves no key behind, on stores the two that were given. */
    method SetACL(enabled: bool, accessKey: string, secretKey: string)
      modifies this`secrets, this`mechanism, secrets
      ensures mechanism == if enabled then ACL else NONE
      ensures Get(Held(secrets), ACCESS_KEY) == (if enabled then accessKey else "")
      ensures Get(Held(secrets), SECRET_KEY) == (if enabled then secretKey else "")
      ensures forall key | key != ACCESS_KEY && key != SECRET_KEY :: Get(Held(secrets), key) == old(Get(Held(secrets), key))
    {
      if !enabled {
        mechanism := NONE;
        SetSecret(ACCESS_KEY, "");
        SetSecret(SECRET_KEY, "");
        return;
      }
      mechanism := ACL;
      SetSecret(ACCESS_KEY, accessKey);
      SetSecret(SECRET_KEY, secretKey);
    }

    /** The keys that hold a value, in order. */
    method ConfiguredSecrets() returns (keys: seq<string>)
      ensures Sorted(keys)
      ensures forall key :: key in keys <==> Get(Held(secrets), key) != ""
    {
      keys := [];
      var entries := Entries(secrets);
      var left := entries.Keys;
      while left != {}
        invariant left <= entries.Keys && Sorted(keys)
        invariant forall key :: key in keys <==> key in entries && key !in left && entries[key] != ""
        decreases |left|
      {
        var key :| key in left;
        if entries[key] != "" {
          keys := InsertInOrder(keys, key);
        }
        left := left - {key};
      }
    }

    /** A copy that shares no map with its source. */
    method Clone() returns (copied: Profile)
      ensures fresh(copied) && copied.View() == View()
      ensures copied.options != null ==> fresh(copied.options)
      ensures copied.secrets != null ==> fresh(copied.secrets)
    {
      var options := CloneStringMap(options);
      var secrets := CloneStringMap(secrets);
      copied := new Profile(details, kind, endpoints, mechanism, options, secrets);
    }
  }

  /** The fields of an old file, for a profile that leaves its own blank. */
  method MigrateFields(profile: Profile, legacy: Legacy)
    modifies profile`kind, profile`endpoints, profile`mechanism
    ensures profile.kind == if old(profile.kind) == "" then ROCKETMQ else old(profile.kind)
    ensures profile.endpoints == if old(profile.endpoints) == "" then legacy.nameServer else old(profile.endpoints)
    ensures profile.mechanism == if old(profile.mechanism) != "" then old(profile.mechanism)
                                 else if legacy.enableACL then ACL else NONE
  {
    if profile.kind == "" {
      profile.kind := ROCKETMQ;
    }
    if profile.endpoints == "" {
      profile.endpoints := legacy.nameServer;
    }
    if profile.mechanism == "" {
      profile.mechanism := NONE;
      if legacy.enableACL {
        profile.mechanism := ACL;
      }
    }
  }

  /** The key pair of an old file, for a profile that has no secret of its own. */
  method RestoreKeys(profile: Profile, legacy: Legacy)
    modifies profile`secrets, profile.secrets
    ensures Held(profile.secrets) ==
            if NoSecrets(old(Held(profile.secrets)))
            then Put(Put(old(Held(profile.secrets)), ACCESS_KEY, legacy.accessKey), SECRET_KEY, legacy.secretKey)
            else old(Held(profile.secrets))
    ensures if old(profile.secrets) != null then profile.secrets == old(profile.secrets)
            else profile.secrets != null ==> fresh(profile.secrets)
  {
    if profile.secrets == null || profile.secrets.entries == map[] {
      profile.SetSecret(ACCESS_KEY, legacy.accessKey);
      profile.SetSecret(SECRET_KEY, legacy.secretKey);
    }
  }

  // ---- Storing and loading ------------------------------------------------------------------------

  class Record {
    var profile: Profile  // its own secrets are absent; `secrets` beside it carries them
    var secrets: StringMap?
    var legacy: Legacy

    ghost function View(): Value
      reads this, profile, profile.options, secrets
    {
      Value(profile.details, profile.kind, profile.endpoints, profile.mechanism, Held(profile.options), Held(secrets))
    }

    constructor (profile: Profile, secrets: StringMap?, legacy: Legacy)
      ensures this.profile == profile && this.secrets == secrets && this.legacy == legacy
    {
      this.profile, this.secrets, this.legacy := profile, secrets, legacy;
    }

    /** The profile a record stands for; the record's own secrets are left as they were. */
    method Load() returns (loaded: Profile)
      ensures fresh(loaded) && loaded.View() == old(Migrated(View(), legacy)) && View() == old(View())
      ensures loaded.secrets != null ==> fresh(loaded.secrets)
      ensures loaded.options == profile.options
    {
      hide Put, NoSecrets;
      var own := CloneStringMap(secrets);
      loaded := new Profile(profile.details, profile.kind, profile.endpoints, profile.mechanism, profile.options, own);
      MigrateFields(loaded, legacy);
      RestoreKeys(loaded, legacy);
    }
  }

  /** The record carries the secrets explicitly and the embedded profile none, so none reaches a reader of it. */
  method NewConnectionRecord(profile: Profile) returns (record: Record)
    ensures fresh(record) && fresh(record.profile) && record.profile.secrets == null
    ensures record.View() == profile.View() && record.legacy == NO_LEGACY
    ensures record.secrets != null ==> fresh(record.secrets)
  {
    var own := CloneStringMap(profile.secrets);
    var base := new Profile(profile.details, profile.kind, profile.endpoints, profile.mechanism, profile.options, null);
    record := new Record(base, own, NO_LEGACY);
  }

  /** What was stored is what is loaded, exactly when the profile names its kind and its mechanism. */
  lemma StoredIsLoaded(profile: Value)
    ensures Migrated(profile, NO_LEGACY) == profile <==> profile.kind != "" && profile.mechanism != ""
  {
  }

  /** A migrated record is a record like any other: storing it and migrating again changes nothing. */
  lemma MigratingTwiceIsMigratingOnce(stored: Value, legacy: Legacy)
    ensures Migrated(Migrated(stored, legacy), NO_LEGACY) == Migrated(stored, legacy)
  {
  }

  /** No credential is lost on the way: secrets the record has are kept as they are, and one that has none gets the key
      pair of the old file. */
  lemma MigrationKeepsCredentials(stored: Value, legacy: Legacy, key: string)
    ensures Get(Migrated(stored, legacy).secrets, key) ==
            if stored.secrets.Some? && stored.secrets.value != map[] then Get(stored.secrets, key)
            else if key == ACCESS_KEY then legacy.accessKey
            else if key == SECRET_KEY then legacy.secretKey
            else ""
  {
  }

  /** Migration fills in what an old file leaves blank and changes nothing else: the kind of broker there was then, the
      name server for the endpoints, and a mechanism that asks for credentials exactly when the old file did. */
  lemma MigrationFillsBlanks(stored: Value, legacy: Legacy)
    ensures var loaded := Migrated(stored, legacy);
            loaded.details == stored.details && loaded.options == stored.options &&
            loaded.kind != "" && loaded.mechanism != "" &&
            (loaded.kind != stored.kind <==> stored.kind == "") && (stored.kind == "" ==> loaded.kind == "rocketmq") &&
            (loaded.endpoints == "" <==> stored.endpoints == "" && legacy.nameServer == "") &&
            (loaded.endpoints != stored.endpoints ==> stored.endpoints == "" && loaded.endpoints == legacy.nameServer) &&
            (loaded.mechanism == "acl" <==>
               stored.mechanism == "acl" || (stored.mechanism == "" && legacy.enableACL)) &&
            (loaded.mechanism != stored.mechanism ==> stored.mechanism == "" && loaded.mechanism in {"acl", "none"})
  {
    assert NONE != ACL by { assert NONE[0] != ACL[0]; }
  }

  // ---- A form submission --------------------------------------------------------------------------

  /** What the form sends about credentials and connection; the rest of the profile is `details`. */
  datatype Input = Input(details: Details, kind: string, endpoints: string, mechanism: string, options: StringMap?,
                         secrets: StringMap?, credentialsMode: string)

  /** Only what was typed becomes a secret, in whatever order the form's map is read. */
  method ProfileOf(input: Input) returns (profile: Profile)
    ensures fresh(profile) && (profile.secrets != null ==> fresh(profile.secrets))
    ensures profile.details == input.details && profile.kind == input.kind && profile.endpoints == input.endpoints &&
            profile.mechanism == input.mechanism && profile.options == input.options
    ensures forall key :: Get(Held(profile.secrets), key) == Get(Held(input.secrets), key)
  {
    hide Get, Put;
    profile := new Profile(input.details, input.kind, input.endpoints, input.mechanism, input.options, null);
    var typed := Entries(input.secrets);
    var left := typed.Keys;
    EntriesRead(input.secrets);
    assert forall key :: Get(None, key) == "" by {
      NothingHeld();
    }
    while left != {}
      invariant left <= typed.Keys && fresh(profile) && (profile.secrets != null ==> fresh(profile.secrets))
      invariant profile.details == input.details && profile.kind == input.kind && profile.endpoints == input.endpoints &&
                profile.mechanism == input.mechanism && profile.options == input.options
      invariant typed == Entries(input.secrets)
      invariant forall key :: Get(Held(profile.secrets), key) == if key in typed && key !in left then typed[key] else ""
      decreases |left|
    {
      var key :| key in left;
      PutThenGet(Held(profile.secrets), key, typed[key]);
      profile.SetSecret(key, typed[key]);
      left := left - {key};
    }
  }

  lemma NothingHeld()
    ensures forall key :: Get(None, key) == ""
  {
  }

  lemma EntriesRead(m: StringMap?)
    ensures forall key :: Get(Held(m), key) == if key in Entries(m) then Entries(m)[key] else ""
  {
  }

  datatype Failure = ConnectionNotFound | InvalidMode

  /** `current` is what the store has under `id`, None when it has nothing. The stored map is read and not changed. */
  method ApplyCredentialsMode(id: int, profile: Profile, mode: string, current: Option<Profile>)
    returns (failure: Option<Failure>)
    requires current.Some? ==> profile != current.value
    requires current.Some? && current.value.secrets != null ==> current.value.secrets != profile.secrets
    requires profile.options != null ==> profile.options != profile.secrets
    modifies profile, profile.secrets
    ensures failure == if mode !in {"preserve", "", "clear", "replace"} then Some(InvalidMode)
                       else if mode in {"preserve", ""} && id != 0 && current.None? then Some(ConnectionNotFound)
                       else None
    ensures failure.Some? || mode == "replace" || (mode in {"preserve", ""} && id == 0) ==> profile.View() == old(profile.View())
    ensures mode == "clear" ==> profile.View() == old(profile.View()).(secrets := None, mechanism := NONE)
    ensures mode in {"preserve", ""} && id != 0 && current.Some? ==>
              profile.View().(secrets := None) == old(profile.View().(secrets := None)) &&
              forall key :: Get(Held(profile.secrets), key) ==
                            if old(Get(Held(profile.secrets), key)) != "" then old(Get(Held(profile.secrets), key))
                            else old(Get(Held(current.value.secrets), key))
  {
    failure := None;
    if mode == "preserve" || mode == "" {
      if id == 0 {
        return;
      }
      if current.None? {
        return Some(ConnectionNotFound);
      }
      PreserveStored(profile, Entries(current.value.secrets));
    } else if mode == "clear" {
      profile.secrets := null;
      profile.mechanism := NONE;
    } else if mode == "replace" {
    } else {
      failure := Some(InvalidMode);
    }
  }

  /** Every field left blank keeps what is stored, whatever order the stored map is read in. */
  method PreserveStored(profile: Profile, stored: map<string, string>)
    modifies profile`secrets, profile.secrets
    ensures old(profile.secrets) != null ==> profile.secrets == old(profile.secrets)
    ensures old(profile.secrets) == null ==> profile.secrets != null ==> fresh(profile.secrets)
    ensures forall key :: Get(Held(profile.secrets), key) ==
              if old(Get(Held(profile.secrets), key)) != "" then old(Get(Held(profile.secrets), key)) else Get(Some(stored), key)
  {
    hide Get, Put;
    ghost var before := Held(profile.secrets);
    var left := stored.Keys;
    StoredRead(stored);
    while left != {}
      invariant left <= stored.Keys
      invariant old(profile.secrets) != null ==> profile.secrets == old(profile.secrets)
      invariant old(profile.secrets) == null ==> profile.secrets != null ==> fresh(profile.secrets)
      invariant forall key :: Get(Held(profile.secrets), key) ==
                  if Get(before, key) != "" || key !in stored || key in left then Get(before, key) else stored[key]
      decreases |left|
    {
      var key :| key in left;
      var typed := profile.Secret(key);
      if typed == "" {
        PutThenGet(Held(profile.secrets), key, stored[key]);
        profile.SetSecret(key, stored[key]);
      }
      left := left - {key};
    }
  }

  lemma StoredRead(stored: map<string, string>)
    ensures forall key :: Get(Some(stored), key) == if key in stored then stored[key] else ""
  {
  }

  // ---- Order of keys ------------------------------------------------------------------------------

  predicate Less(a: string, b: string) {
    if a == "" then b != ""
    else b != "" && (a[0] < b[0] || (a[0] == b[0] && Less(a[1..], b[1..])))
  }

  ghost predicate Sorted(keys: seq<string>) {
    forall i, j | 0 <= i < j < |keys| :: Less(keys[i], keys[j])
  }

  lemma {:induction false} LessIsTransitive(a: string, b: string, c: string)
    requires Less(a, b) && Less(b, c)
    ensures Less(a, c)
  {
    if a != "" && a[0] == b[0] == c[0] {
      LessIsTransitive(a[1..], b[1..], c[1..]);
    }
  }

  lemma {:induction false} LessIsTotal(a: string, b: string)
    requires a != b
    ensures Less(a, b) || Less(b, a)
  {
    if a != "" && b != "" && a[0] == b[0] {
      assert a == [a[0]] + a[1..] && b == [b[0]] + b[1..];
      LessIsTotal(a[1..], b[1..]);
    }
  }

  function InsertInOrder(keys: seq<string>, key: string): (more: seq<string>)
    requires Sorted(keys) && key !in keys
    ensures Sorted(more) && forall k :: k in more <==> k in keys || k == key
  {
    if keys == [] then [key]
    else if Less(key, keys[0]) then
      assert Sorted([key] + keys) by {
        FirstIsLeast(key, keys);
      }
      [key] + keys
    else
      var rest := InsertInOrder(keys[1..], key);
      assert forall k :: k in keys <==> k == keys[0] || k in keys[1..];
      assert Sorted([keys[0]] + rest) by {
        LessIsTotal(key, keys[0]);
        assert forall k | k in keys[1..] :: Less(keys[0], k);
        assert forall k | k in rest :: Less(keys[0], k);
        assert forall i | 0 <= i < |rest| :: rest[i] in rest;
      }
      [keys[0]] + rest
  }

  lemma FirstIsLeast(key: string, keys: seq<string>)
    requires Sorted(keys) && keys != [] && Less(key, keys[0])
    ensures Sorted([key] + keys)
  {
    forall j | 0 <= j < |keys| ensures Less(key, keys[j]) {
      if j > 0 {
        LessIsTransitive(key, keys[0], keys[j]);
      }
    }
  }
}
