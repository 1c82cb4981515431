/**
 * What re-encryption keeps, for one restart and for any chain of them
 * (backend/internal/store/crypto.go).
 */
module KeyRotation {
  import opened Strings
  import opened Keyring

  // ---- Values under one key ----

  /** encoded holds plaintext under key, or both are empty. */
  ghost predicate SealedUnder(c: Cipher, key: Key, encoded: string, plaintext: string) {
    || (encoded == "" && plaintext == "")
    || (plaintext != "" && exists data ::
          encoded == CIPHER_PREFIX + c.keyId(key) + ":" + data && c.open(key, data) == Some(plaintext))
  }

  lemma {:induction false} FirstColonAfter(id: string, data: string)
    requires ':' !in id
    ensures FirstColon(id + ":" + data) == Some(|id|)
  {
    if id == "" {
      assert (id + ":" + data)[0] == ':';
    } else {
      assert (id + ":" + data)[1..] == id[1..] + ":" + data;
      FirstColonAfter(id[1..], data);
    }
  }

  lemma DecryptPrefixed(c: Cipher, r: Ring, id: string, data: string)
    requires ':' !in id
    ensures Decrypt(c, r, CIPHER_PREFIX + id + ":" + data) == if id in r.keys then OpenWith(c, r.keys[id], data)
      else UnknownKey
  {
    var encoded := CIPHER_PREFIX + id + ":" + data;
    assert encoded == "k1:" + (id + ":" + data);
    assert encoded[..3] == CIPHER_PREFIX && encoded[3..] == id + ":" + data;
    FirstColonAfter(id, data);
    assert (id + ":" + data)[..|id|] == id && (id + ":" + data)[|id| + 1..] == data;
  }

  lemma DecryptSealed(c: Cipher, r: Ring, key: Key, encoded: string, plaintext: string)
    requires Reliable(c) && SealedUnder(c, key, encoded, plaintext)
    requires c.keyId(key) in r.keys && r.keys[c.keyId(key)] == key
    ensures Decrypt(c, r, encoded) == Plain(plaintext)
  {
    if plaintext != "" {
      var data :| encoded == CIPHER_PREFIX + c.keyId(key) + ":" + data && c.open(key, data) == Some(plaintext);
      DecryptPrefixed(c, r, c.keyId(key), data);
    }
  }

  /** The ring's current key is the one its id stands for. */
  ghost predicate Consistent(c: Cipher, r: Ring) {
    r.currentId == c.keyId(r.current) && r.currentId in r.keys && r.keys[r.currentId] == r.current
  }

  lemma EncryptSeals(c: Cipher, r: Ring, plaintext: string, nonce: nat)
    requires Reliable(c) && r.currentId == c.keyId(r.current)
    ensures SealedUnder(c, r.current, Encrypt(c, r, plaintext, nonce), plaintext)
  {
    if plaintext != "" {
      var data := c.seal(r.current, plaintext, nonce);
      assert c.open(r.current, data) == Some(plaintext);
      assert Encrypt(c, r, plaintext, nonce) == CIPHER_PREFIX + c.keyId(r.current) + ":" + data;
    }
  }

  lemma CurrentValuesAreSealed(c: Cipher, r: Ring, encoded: string)
    requires Reliable(c) && Consistent(c, r) && !NeedsRekey(r, encoded) && Decrypt(c, r, encoded).Plain?
    requires encoded != "" ==> Decrypt(c, r, encoded).text != ""
    ensures SealedUnder(c, r.current, encoded, Decrypt(c, r, encoded).text)
  {
    if encoded != "" {
      var prefix := CIPHER_PREFIX + r.currentId + ":";
      var data := encoded[|prefix|..];
      assert encoded == encoded[..|prefix|] + data;
      DecryptPrefixed(c, r, r.currentId, data);
      assert encoded == CIPHER_PREFIX + c.keyId(r.current) + ":" + data;
    }
  }

  // ---- One Rekey ----

  /** The columns Rekey must be able to read. */
  ghost predicate AllReadable(c: Cipher, r: Ring, columns: seq<Column>) {
    forall i :: 0 <= i < |columns| && columns[i].Some? && NeedsRekey(r, columns[i].value) ==>
      Decrypt(c, r, columns[i].value).Plain?
  }

  /** What Rekey makes of one column. */
  ghost predicate Rewritten(c: Cipher, r: Ring, before: Column, after: Column) {
    if before.Some? && NeedsRekey(r, before.value)
    then after.Some? && Decrypt(c, r, before.value).Plain?
      && SealedUnder(c, r.current, after.value, Decrypt(c, r, before.value).text)
    else after == before
  }

  /** Rekey succeeds exactly when it can read what it must rewrite, and rewrites exactly that. */
  lemma {:induction false} RekeyExact(c: Cipher, r: Ring, columns: seq<Column>, nonce: nat)
    requires Reliable(c) && r.currentId == c.keyId(r.current)
    ensures var o := Reencrypted(c, r, columns, nonce);
      && (o.Done? <==> AllReadable(c, r, columns))
      && (o.Done? ==> forall i :: 0 <= i < |columns| ==> Rewritten(c, r, columns[i], o.columns[i]))
  {
    if columns != [] {
      var init, last := columns[..|columns| - 1], columns[|columns| - 1];
      RekeyExact(c, r, init, nonce);
      assert AllReadable(c, r, columns) <==>
        AllReadable(c, r, init) && (last.Some? && NeedsRekey(r, last.value) ==> Decrypt(c, r, last.value).Plain?) by {
        assert columns == init + [last];
      }
      if last.Some? && NeedsRekey(r, last.value) && Decrypt(c, r, last.value).Plain? {
        EncryptSeals(c, r, Decrypt(c, r, last.value).text, nonce + |init|);
      }
    }
  }

  /** The listed values that are not under the current key. */
  ghost function Due(r: Ring, columns: seq<Column>): set<nat> {
    set i: nat | i < |columns| && columns[i].Some? && NeedsRekey(r, columns[i].value)
  }

  lemma DueGrows(r: Ring, columns: seq<Column>)
    requires columns != []
    ensures var init, last := columns[..|columns| - 1], columns[|columns| - 1];
      |Due(r, columns)| == |Due(r, init)| + if last.Some? && NeedsRekey(r, last.value) then 1 else 0
  {
    var init, last := columns[..|columns| - 1], columns[|columns| - 1];
    assert Due(r, columns) == Due(r, init) +
      if last.Some? && NeedsRekey(r, last.value) then {|init|} else {};
  }

  /** A successful Rekey reports exactly how many listed values were not under the current key. */
  lemma {:induction false} RewritesExact(c: Cipher, r: Ring, columns: seq<Column>, nonce: nat)
    requires Reencrypted(c, r, columns, nonce).Done?
    ensures Rewrites(c, r, columns, nonce) == |Due(r, columns)|
  {
    if columns != [] {
      RewritesExact(c, r, columns[..|columns| - 1], nonce);
      DueGrows(r, columns);
    }
  }

  /**
   * After a successful Rekey every listed value reads as before and is under the current key;
   * any ring that holds that key reads it, whatever else it has lost.
   */
  lemma RekeyKeepsPlaintext(c: Cipher, r: Ring, columns: seq<Column>, nonce: nat, later: Ring, i: nat)
    requires Reliable(c) && Consistent(c, r) && Reencrypted(c, r, columns, nonce).Done?
    requires r.currentId in later.keys && later.keys[r.currentId] == r.current
    requires i < |columns| && columns[i].Some?
    ensures var after := Reencrypted(c, r, columns, nonce).columns[i];
      && after.Some?
      && !NeedsRekey(r, after.value)
      && Decrypt(c, later, after.value) == Decrypt(c, r, columns[i].value)
  {
    RekeyExact(c, r, columns, nonce);
    var before, after := columns[i], Reencrypted(c, r, columns, nonce).columns[i];
    assert Rewritten(c, r, before, after);
    if NeedsRekey(r, before.value) {
      SealedIsCurrent(c, r, after.value, Decrypt(c, r, before.value).text);
      DecryptSealed(c, later, r.current, after.value, Decrypt(c, r, before.value).text);
    } else if before.value != "" {
      CurrentReadsAlike(c, r, later, before.value);
    }
  }

  lemma SealedIsCurrent(c: Cipher, r: Ring, encoded: string, plaintext: string)
    requires r.currentId == c.keyId(r.current) && SealedUnder(c, r.current, encoded, plaintext)
    ensures !NeedsRekey(r, encoded)
  {
    if plaintext != "" {
      var data :| encoded == CIPHER_PREFIX + r.currentId + ":" + data;
      assert encoded[..|CIPHER_PREFIX + r.currentId + ":"|] == CIPHER_PREFIX + r.currentId + ":";
    }
  }

  lemma CurrentReadsAlike(c: Cipher, r: Ring, later: Ring, encoded: string)
    requires Reliable(c) && Consistent(c, r) && encoded != "" && !NeedsRekey(r, encoded)
    requires r.currentId in later.keys && later.keys[r.currentId] == r.current
    ensures Decrypt(c, later, encoded) == Decrypt(c, r, encoded)
  {
    var prefix := CIPHER_PREFIX + r.currentId + ":";
    var data := encoded[|prefix|..];
    assert encoded == CIPHER_PREFIX + r.currentId + ":" + data;
    DecryptPrefixed(c, r, r.currentId, data);
    DecryptPrefixed(c, later, r.currentId, data);
  }

  // ---- What dropping the stored key costs ----

  /** A value under the current key stays readable in the running process unless the stored key is that key. */
  lemma CurrentValueReadable(c: Cipher, r: Ring, plaintext: string, nonce: nat)
    requires Reliable(c) && Consistent(c, r) && plaintext != ""
    ensures Decrypt(c, AfterRekey(c, r), Encrypt(c, r, plaintext, nonce)) == Plain(plaintext)
      <==> !(r.external && r.legacy.Some? && c.keyId(r.legacy.value) == r.currentId)
  {
    DecryptPrefixed(c, AfterRekey(c, r), r.currentId, c.seal(r.current, plaintext, nonce));
  }

  /** A process started with the stored key as its external key cannot read its own values after Rekey. */
  lemma OwnKeyLost(c: Cipher, key: Key, random: Key, plaintext: string, nonce: nat)
    requires Reliable(c) && key != "" && plaintext != ""
    ensures var (ring, _) := Build(c, Config(key, []), Some(key), random);
      var saved := Encrypt(c, ring, plaintext, nonce);
      && Decrypt(c, ring, saved) == Plain(plaintext)
      && Decrypt(c, AfterRekey(c, ring), saved) == UnknownKey
  {
    var (ring, _) := Build(c, Config(key, []), Some(key), random);
    var data := c.seal(key, plaintext, nonce);
    assert Encrypt(c, ring, plaintext, nonce) == CIPHER_PREFIX + c.keyId(key) + ":" + data;
    DecryptPrefixed(c, ring, c.keyId(key), data);
    DecryptPrefixed(c, AfterRekey(c, ring), c.keyId(key), data);
  }

  /** The key id a stored value names; None for the older format without a prefix. */
  function NamedKey(encoded: string): Option<string> {
    if StartsWith(encoded, CIPHER_PREFIX) && FirstColon(encoded[3..]).Some?
    then Some(encoded[3..][..FirstColon(encoded[3..]).value])
    else None
  }

  /** What one Rekey leaves of a value it does not rewrite: its reading, unless the dropped key opened it. */
  lemma UnlistedAcrossRekey(c: Cipher, r: Ring, encoded: string)
    requires encoded != "" && Decrypt(c, r, encoded).Plain?
    ensures Decrypt(c, AfterRekey(c, r), encoded) == Decrypt(c, r, encoded)
      <==> !(r.external && r.legacy.Some? &&
             (NamedKey(encoded) == None || NamedKey(encoded) == Some(c.keyId(r.legacy.value))))
  {}

  /** Headers saved while the key was in the database are lost to the process that is first given an external key. */
  lemma HeadersLostWithTheStoredKey(c: Cipher, stored: Key, external: Key, random: Key, headers: string, nonce: nat)
    requires Reliable(c) && stored != "" && external != "" && c.keyId(stored) != c.keyId(external) && headers != ""
    ensures var (before, _) := Build(c, Config("", []), Some(stored), random);
      var (after, _) := Build(c, Config(external, []), Some(stored), random);
      var saved := Encrypt(c, before, headers, nonce);
      && Decrypt(c, before, saved) == Plain(headers)
      && Decrypt(c, after, saved) == Plain(headers)
      && Decrypt(c, AfterRekey(c, after), saved) == UnknownKey
  {
    var (before, _) := Build(c, Config("", []), Some(stored), random);
    var (after, _) := Build(c, Config(external, []), Some(stored), random);
    var data := c.seal(stored, headers, nonce);
    assert Encrypt(c, before, headers, nonce) == CIPHER_PREFIX + c.keyId(stored) + ":" + data;
    DecryptPrefixed(c, before, c.keyId(stored), data);
    DecryptPrefixed(c, after, c.keyId(stored), data);
    DecryptPrefixed(c, AfterRekey(c, after), c.keyId(stored), data);
  }

  // ---- Chains of restarts ----

  /** A running process and its database. */
  datatype Process = Process(ring: Ring, columns: seq<Column>, stored: Option<Key>, nonce: nat)

  datatype Event = Restart(cfg: Config, random: Key) | Save(i: nat, text: string)

  /** A new process on the same database; a failed Rekey is only logged. */
  function Restarted(c: Cipher, p: Process, cfg: Config, random: Key): Process {
    var (ring, stored) := Build(c, cfg, p.stored, random);
    match Reencrypted(c, ring, p.columns, p.nonce)
    case Failed(_) => Process(ring, p.columns, stored, p.nonce)
    case Done(columns) =>
      Process(AfterRekey(c, ring), columns,
              if ring.external && ring.legacy.Some? then None else stored, p.nonce + |columns|)
  }

  function Next(c: Cipher, p: Process, e: Event): Process {
    match e
    case Restart(cfg, random) => Restarted(c, p, cfg, random)
    case Save(i, text) =>
      if i < |p.columns|
        then p.(columns := p.columns[i := Some(Encrypt(c, p.ring, text, p.nonce))], nonce := p.nonce + 1) else p
  }

  function Chain(c: Cipher, p: Process, events: seq<Event>): Process {
    if events == [] then p else Next(c, Chain(c, p, events[..|events| - 1]), events[|events| - 1])
  }

  /** What the administrators entered last, column by column. */
  function Entered(texts: seq<Option<string>>, events: seq<Event>): (r: seq<Option<string>>)
    ensures |r| == |texts|
  {
    if events == [] then texts
    else
      var before := Entered(texts, events[..|events| - 1]);
      match events[|events| - 1]
      case Restart(_, _) => before
      case Save(i, text) => if i < |before| then before[i := Some(text)] else before
  }

  /** The keys a starting process is given: configured, previous and stored or created. */
  function Given(cfg: Config, stored: Option<Key>, random: Key): set<Key> {
    (set k | k in cfg.previous && k != "")
    + (if cfg.current != "" then {cfg.current} else if StoredKey(stored).None? then {random} else {})
    + (if StoredKey(stored).Some? then {StoredKey(stored).value} else {})
  }

  ghost predicate DistinctIds(c: Cipher, keys: set<Key>) {
    forall a, b :: a in keys && b in keys && c.keyId(a) == c.keyId(b) ==> a == b
  }

  /** Every restart is still given the key used before it, and no two of its keys share an id. */
  ghost predicate KeysHandedOver(c: Cipher, p: Process, events: seq<Event>) {
    events == [] ||
    (var before := events[..|events| - 1];
     KeysHandedOver(c, p, before) &&
     match events[|events| - 1]
     case Save(_, _) => true
     case Restart(cfg, random) =>
       var q := Chain(c, p, before);
       q.ring.current in Given(cfg, q.stored, random) && DistinctIds(c, Given(cfg, q.stored, random)))
  }

  /** encoded holds text in the older format, under the stored key. */
  predicate OldFormat(c: Cipher, stored: Option<Key>, encoded: string, text: string) {
    && encoded != "" && !StartsWith(encoded, CIPHER_PREFIX)
    && StoredKey(stored).Some? && c.open(StoredKey(stored).value, encoded) == Some(text)
  }

  /** Values of the older format are under the stored key, all others under the current one. */
  ghost predicate Held(c: Cipher, p: Process, value: Column, text: Option<string>) {
    match value
    case None => text == None
    case Some(encoded) => (
      && text.Some?
      && (SealedUnder(c, p.ring.current, encoded, text.value) || OldFormat(c, p.stored, encoded, text.value)))
  }

  ghost predicate AllHeld(c: Cipher, p: Process, texts: seq<Option<string>>) {
    && p.ring.currentId == c.keyId(p.ring.current)
    && |p.columns| == |texts|
    && forall i :: 0 <= i < |texts| ==> Held(c, p, p.columns[i], texts[i])
  }

  ghost predicate ProperlyFiled(c: Cipher, keys: map<string, Key>, from: set<Key>) {
    forall id :: id in keys ==> keys[id] in from && c.keyId(keys[id]) == id
  }

  lemma {:induction false} AddKeysFiles(c: Cipher, keys: map<string, Key>, more: seq<Key>, from: set<Key>)
    requires ProperlyFiled(c, keys, from) && forall k :: k in more && k != "" ==> k in from
    ensures ProperlyFiled(c, AddKeys(c, keys, more), from)
    ensures forall id :: id in keys ==> id in AddKeys(c, keys, more)
    ensures forall k :: k in more && k != "" ==> c.keyId(k) in AddKeys(c, keys, more)
  {
    if more != [] {
      AddKeysFiles(c, keys, more[..|more| - 1], from);
      assert more == more[..|more| - 1] + [more[|more| - 1]];
    }
  }

  /** A starting process can look up every key it was given. */
  lemma BuildHoldsGiven(c: Cipher, cfg: Config, stored: Option<Key>, random: Key, key: Key)
    requires DistinctIds(c, Given(cfg, stored, random)) && key in Given(cfg, stored, random)
    ensures var ring := Build(c, cfg, stored, random).0;
      && c.keyId(key) in ring.keys && ring.keys[c.keyId(key)] == key
      && Consistent(c, ring)
  {
    var given := Given(cfg, stored, random);
    var current := Build(c, cfg, stored, random).0.current;
    var first := map[c.keyId(current) := current];
    assert current in given;
    AddKeysFiles(c, first, cfg.previous, given);
    assert ProperlyFiled(c, Build(c, cfg, stored, random).0.keys, given);
  }

  /** A process starting with the key used before reads every text, so its Rekey succeeds. */
  lemma EveryTextReadable(c: Cipher, p: Process, texts: seq<Option<string>>, cfg: Config, random: Key)
    requires Reliable(c) && AllHeld(c, p, texts)
    requires p.ring.current in Given(cfg, p.stored, random) && DistinctIds(c, Given(cfg, p.stored, random))
    ensures var ring := Build(c, cfg, p.stored, random).0;
      && (forall i :: 0 <= i < |texts| && texts[i].Some? ==>
        Decrypt(c, ring, p.columns[i].value) == Plain(texts[i].value))
      && Reencrypted(c, ring, p.columns, p.nonce).Done?
  {
    var ring := Build(c, cfg, p.stored, random).0;
    BuildHoldsGiven(c, cfg, p.stored, random, p.ring.current);
    forall i | 0 <= i < |texts| && texts[i].Some?
      ensures Decrypt(c, ring, p.columns[i].value) == Plain(texts[i].value)
    {
      assert Held(c, p, p.columns[i], texts[i]);
      if SealedUnder(c, p.ring.current, p.columns[i].value, texts[i].value) {
        DecryptSealed(c, ring, p.ring.current, p.columns[i].value, texts[i].value);
      }
    }
    RekeyExact(c, ring, p.columns, p.nonce);
    forall i | 0 <= i < |texts| && p.columns[i].Some? ensures texts[i].Some? {
      assert Held(c, p, p.columns[i], texts[i]);
    }
    assert AllReadable(c, ring, p.columns);
  }

  /** A restart given the key used before re-encrypts everything and loses nothing. */
  lemma RestartKeepsTexts(c: Cipher, p: Process, texts: seq<Option<string>>, cfg: Config, random: Key)
    requires Reliable(c) && AllHeld(c, p, texts)
    requires p.ring.current in Given(cfg, p.stored, random) && DistinctIds(c, Given(cfg, p.stored, random))
    ensures var q := Restarted(c, p, cfg, random);
      && AllHeld(c, q, texts)
      && forall i :: 0 <= i < |texts| && texts[i].Some? ==>
        SealedUnder(c, q.ring.current, q.columns[i].value, texts[i].value)
  {
    var (ring, stored) := Build(c, cfg, p.stored, random);
    BuildHoldsGiven(c, cfg, p.stored, random, p.ring.current);
    EveryTextReadable(c, p, texts, cfg, random);
    RekeyExact(c, ring, p.columns, p.nonce);
    var q := Restarted(c, p, cfg, random);
    forall i | 0 <= i < |texts| ensures Held(c, q, q.columns[i], texts[i])
      && (texts[i].Some? ==> SealedUnder(c, q.ring.current, q.columns[i].value, texts[i].value))
    {
      assert Held(c, p, p.columns[i], texts[i]) && Rewritten(c, ring, p.columns[i], q.columns[i]);
      if texts[i].Some? && !NeedsRekey(ring, p.columns[i].value) {
        OldOrCurrent(c, p, ring, p.columns[i].value, texts[i].value);
      }
    }
  }

  lemma OldOrCurrent(c: Cipher, p: Process, ring: Ring, encoded: string, text: string)
    requires Reliable(c) && Consistent(c, ring) && !NeedsRekey(ring, encoded)
      && Decrypt(c, ring, encoded) == Plain(text)
    requires (encoded != "" && !StartsWith(encoded, CIPHER_PREFIX)) || SealedUnder(c, p.ring.current, encoded, text)
    ensures SealedUnder(c, ring.current, encoded, text)
  {
    if encoded != "" {
      var prefix := CIPHER_PREFIX + ring.currentId + ":";
      assert encoded[..|prefix|][..3] == encoded[..3] && prefix[..3] == CIPHER_PREFIX;
      if text != "" {
        CurrentValuesAreSealed(c, ring, encoded);
      }
    }
  }

  /**
   * Along any chain of restarts and saves in which each restart is still given the key used
   * before it, every listed secret stays the one last entered; after a restart all of them
   * are under the key that restart uses.
   */
  lemma {:induction false} RotationKeepsSecrets(c: Cipher, p: Process, texts: seq<Option<string>>, events: seq<Event>)
    requires Reliable(c) && AllHeld(c, p, texts) && KeysHandedOver(c, p, events)
    ensures AllHeld(c, Chain(c, p, events), Entered(texts, events))
    ensures events != [] && events[|events| - 1].Restart? ==>
      var q, now := Chain(c, p, events), Entered(texts, events);
      forall i :: 0 <= i < |now| && now[i].Some? ==> SealedUnder(c, q.ring.current, q.columns[i].value, now[i].value)
  {
    if events != [] {
      var before := events[..|events| - 1];
      RotationKeepsSecrets(c, p, texts, before);
      var q, now := Chain(c, p, before), Entered(texts, before);
      match events[|events| - 1]
      case Restart(cfg, random) => RestartKeepsTexts(c, q, now, cfg, random);
      case Save(i, text) => if i < |now| { EncryptSeals(c, q.ring, text, q.nonce); }
    }
  }

  // ---- Restarts whose Rekey fails ----

  /** A process whose Rekey failed still reads what is sealed under any key it was given, the stored one included. */
  lemma FailedRekeyKeepsKeys(
    c: Cipher, p: Process, cfg: Config, random: Key, key: Key, encoded: string, text: string)
    requires Reliable(c) && DistinctIds(c, Given(cfg, p.stored, random)) && key in Given(cfg, p.stored, random)
    requires Reencrypted(c, Build(c, cfg, p.stored, random).0, p.columns, p.nonce).Failed?
    ensures SealedUnder(c, key, encoded, text) ==> Decrypt(c, Restarted(c, p, cfg, random).ring, encoded) == Plain(text)
    ensures OldFormat(c, p.stored, encoded, text) ==>
      Decrypt(c, Restarted(c, p, cfg, random).ring, encoded) == Plain(text)
  {
    BuildHoldsGiven(c, cfg, p.stored, random, key);
    if SealedUnder(c, key, encoded, text) {
      DecryptSealed(c, Restarted(c, p, cfg, random).ring, key, encoded, text);
    }
  }

  /**
   * A restart without the key used before loses nothing when its Rekey fails: the next restart
   * that is given that key again has every secret, sealed under its own key.
   */
  lemma FailedRekeyIsMended(
    c: Cipher, p: Process, texts: seq<Option<string>>, cfg: Config, random: Key, again: Config, created: Key)
    requires Reliable(c) && AllHeld(c, p, texts)
    requires Reencrypted(c, Build(c, cfg, p.stored, random).0, p.columns, p.nonce).Failed?
    requires var q := Restarted(c, p, cfg, random);
      p.ring.current in Given(again, q.stored, created) && DistinctIds(c, Given(again, q.stored, created))
    ensures var after := Restarted(c, Restarted(c, p, cfg, random), again, created);
      && AllHeld(c, after, texts)
      && forall i :: 0 <= i < |texts| && texts[i].Some? ==>
        SealedUnder(c, after.ring.current, after.columns[i].value, texts[i].value)
  {
    var stored := Restarted(c, p, cfg, random).stored;
    var kept := p.(stored := stored);
    forall i | 0 <= i < |texts| ensures Held(c, kept, kept.columns[i], texts[i]) {
      assert Held(c, p, p.columns[i], texts[i]);
    }
    RestartKeepsTexts(c, kept, texts, again, created);
  }

  /** A process that holds its current key reads every secret as it was entered. */
  lemma HeldIsRead(c: Cipher, p: Process, encoded: string, text: string)
    requires Reliable(c) && Consistent(c, p.ring) && p.ring.legacy == StoredKey(p.stored)
    requires Held(c, p, Some(encoded), Some(text))
    ensures Decrypt(c, p.ring, encoded) == Plain(text)
  {
    if SealedUnder(c, p.ring.current, encoded, text) {
      DecryptSealed(c, p.ring, p.ring.current, encoded, text);
    }
  }

  // ---- What a process can read ----

  /** Every entered secret is sealed under the current key. */
  ghost predicate AllSealed(c: Cipher, p: Process, texts: seq<Option<string>>) {
    && p.ring.currentId == c.keyId(p.ring.current) && |p.columns| == |texts|
    && forall i :: 0 <= i < |texts| && texts[i].Some? ==>
      p.columns[i].Some? && SealedUnder(c, p.ring.current, p.columns[i].value, texts[i].value)
  }

  predicate OnlySaves(events: seq<Event>) {
    forall i :: 0 <= i < |events| ==> events[i].Save?
  }

  lemma {:induction false} SavesStaySealed(c: Cipher, p: Process, texts: seq<Option<string>>, saves: seq<Event>)
    requires Reliable(c) && AllSealed(c, p, texts) && OnlySaves(saves)
    ensures Chain(c, p, saves).ring == p.ring
    ensures AllSealed(c, Chain(c, p, saves), Entered(texts, saves))
  {
    if saves != [] {
      var init, last := saves[..|saves| - 1], saves[|saves| - 1];
      assert forall i :: 0 <= i < |init| ==> init[i] == saves[i];
      SavesStaySealed(c, p, texts, init);
      var q := Chain(c, p, init);
      EncryptSeals(c, q.ring, last.text, q.nonce);
    }
  }

  lemma {:induction false} ChainAppends(c: Cipher, p: Process, texts: seq<Option<string>>, a: seq<Event>, b: seq<Event>)
    ensures Chain(c, p, a + b) == Chain(c, Chain(c, p, a), b)
    ensures Entered(texts, a + b) == Entered(Entered(texts, a), b)
    decreases |b|
  {
    if b == [] {
      assert a + b == a;
    } else {
      assert (a + b)[..|a + b| - 1] == a + b[..|b| - 1];
      ChainAppends(c, p, texts, a, b[..|b| - 1]);
    }
  }

  lemma SealedReads(c: Cipher, r: Ring, key: Key, encoded: string, text: string)
    requires Reliable(c) && text != "" && SealedUnder(c, key, encoded, text)
    ensures c.keyId(key) !in r.keys ==> Decrypt(c, r, encoded) == UnknownKey
    ensures c.keyId(key) in r.keys && r.keys[c.keyId(key)] == key ==> Decrypt(c, r, encoded) == Plain(text)
  {
    var data :| encoded == CIPHER_PREFIX + c.keyId(key) + ":" + data && c.open(key, data) == Some(text);
    DecryptPrefixed(c, r, c.keyId(key), data);
  }

  /** After a restart that re-encrypted everything, the current key is there unless it was the stored key. */
  lemma RestartKeepsItsKey(c: Cipher, cfg: Config, stored: Option<Key>, random: Key)
    requires random != "" && DistinctIds(c, Given(cfg, stored, random))
    ensures var ring := AfterRekey(c, Build(c, cfg, stored, random).0);
      var id := c.keyId(ring.current);
      if cfg.current != "" && stored == Some(cfg.current) then id !in ring.keys
      else id in ring.keys && ring.keys[id] == ring.current
  {
    var built := Build(c, cfg, stored, random).0;
    assert built.current in Given(cfg, stored, random);
    BuildHoldsGiven(c, cfg, stored, random, built.current);
    if built.external && built.legacy.Some? {
      assert built.legacy.value in Given(cfg, stored, random);
    }
  }

  lemma RestartRekeys(c: Cipher, p: Process, texts: seq<Option<string>>, cfg: Config, random: Key)
    requires Reliable(c) && AllHeld(c, p, texts)
    requires p.ring.current in Given(cfg, p.stored, random) && DistinctIds(c, Given(cfg, p.stored, random))
    ensures AllSealed(c, Restarted(c, p, cfg, random), texts)
    ensures Restarted(c, p, cfg, random).ring == AfterRekey(c, Build(c, cfg, p.stored, random).0)
  {
    RestartKeepsTexts(c, p, texts, cfg, random);
    EveryTextReadable(c, p, texts, cfg, random);
    var q := Restarted(c, p, cfg, random);
    forall i | 0 <= i < |texts| && texts[i].Some? ensures q.columns[i].Some? {
      assert Held(c, q, q.columns[i], texts[i]);
    }
  }

  /**
   * The end of any chain in which each restart is given the key used before it: the process started
   * last reads a secret as it was entered, also one saved since, if and only if its external key is
   * not the key that was stored in the database when it started.
   */
  lemma SecretsAreReadable(c: Cipher, p: Process, texts: seq<Option<string>>, events: seq<Event>,
                           cfg: Config, random: Key, saves: seq<Event>, i: nat)
    requires Reliable(c) && AllHeld(c, p, texts) && OnlySaves(saves) && random != ""
    requires KeysHandedOver(c, p, events + [Restart(cfg, random)])
    requires var now := Entered(texts, events + [Restart(cfg, random)] + saves);
      i < |now| && now[i].Some? && now[i].value != ""
    ensures var all := events + [Restart(cfg, random)] + saves;
      var q, now := Chain(c, p, all), Entered(texts, all);
      && |q.columns| == |now| && q.columns[i].Some?
      && (Decrypt(c, q.ring, q.columns[i].value) == Plain(now[i].value) <==>
            !(cfg.current != "" && Chain(c, p, events).stored == Some(cfg.current)))
  {
    var started := events + [Restart(cfg, random)];
    assert started[..|started| - 1] == events && started[|started| - 1] == Restart(cfg, random);
    RotationKeepsSecrets(c, p, texts, events);
    var q0, texts0 := Chain(c, p, events), Entered(texts, events);
    RestartRekeys(c, q0, texts0, cfg, random);
    RestartKeepsItsKey(c, cfg, q0.stored, random);
    ChainAppends(c, p, texts, started, saves);
    SavesStaySealed(c, Chain(c, p, started), texts0, saves);
    var q, now := Chain(c, p, started + saves), Entered(texts, started + saves);
    SealedReads(c, q.ring, q.ring.current, q.columns[i].value, now[i].value);
  }

  // ---- The column Rekey does not list ----
  // api_definitions.inject_headers_enc is written under the current key and never re-encrypted.

  lemma SavesKeepRing(c: Cipher, p: Process, saves: seq<Event>)
    requires OnlySaves(saves)
    ensures Chain(c, p, saves).ring == p.ring
  {
    if saves != [] {
      var init := saves[..|saves| - 1];
      assert forall i :: 0 <= i < |init| ==> init[i] == saves[i];
      SavesKeepRing(c, p, init);
    }
  }

  /** A starting process looks up exactly the keys it was given. */
  lemma BuildHoldsOnlyGiven(c: Cipher, cfg: Config, stored: Option<Key>, random: Key, key: Key)
    requires DistinctIds(c, Given(cfg, stored, random) + {key})
    ensures var ring := Build(c, cfg, stored, random).0;
      && (c.keyId(key) in ring.keys <==> key in Given(cfg, stored, random))
      && (c.keyId(key) in ring.keys ==> ring.keys[c.keyId(key)] == key)
  {
    var given := Given(cfg, stored, random);
    var ring := Build(c, cfg, stored, random).0;
    assert DistinctIds(c, given) by {
      assert forall k :: k in given ==> k in given + {key};
    }
    assert ring.current in given;
    AddKeysFiles(c, map[c.keyId(ring.current) := ring.current], cfg.previous, given);
    assert ProperlyFiled(c, ring.keys, given);
    if key in given {
      BuildHoldsGiven(c, cfg, stored, random, key);
    }
  }

  /** What a process started with these keys reads of a value under some key, Rekey having succeeded. */
  lemma StartedReads(c: Cipher, cfg: Config, stored: Option<Key>, random: Key, key: Key, encoded: string, text: string)
    requires Reliable(c) && random != "" && DistinctIds(c, Given(cfg, stored, random) + {key})
    requires text != "" && SealedUnder(c, key, encoded, text)
    ensures Decrypt(c, AfterRekey(c, Build(c, cfg, stored, random).0), encoded) ==
      if key in Given(cfg, stored, random) && !(cfg.current != "" && stored == Some(key)) then Plain(text)
      else UnknownKey
  {
    var built := Build(c, cfg, stored, random).0;
    var given := Given(cfg, stored, random);
    BuildHoldsOnlyGiven(c, cfg, stored, random, key);
    if built.external && built.legacy.Some? {
      assert built.legacy.value in given + {key} && key in given + {key};
      assert c.keyId(built.legacy.value) == c.keyId(key) <==> built.legacy.value == key;
    }
    SealedReads(c, AfterRekey(c, built), key, encoded, text);
  }

  /** The keyring at the end of a chain is that of its last restart, after Rekey. */
  lemma RingAtTheEnd(c: Cipher, p: Process, texts: seq<Option<string>>, events: seq<Event>,
                     cfg: Config, random: Key, saves: seq<Event>)
    requires Reliable(c) && AllHeld(c, p, texts) && OnlySaves(saves)
    requires KeysHandedOver(c, p, events + [Restart(cfg, random)])
    ensures Chain(c, p, events + [Restart(cfg, random)] + saves).ring ==
      AfterRekey(c, Build(c, cfg, Chain(c, p, events).stored, random).0)
  {
    var started := events + [Restart(cfg, random)];
    assert started[..|started| - 1] == events && started[|started| - 1] == Restart(cfg, random);
    RotationKeepsSecrets(c, p, texts, events);
    RestartRekeys(c, Chain(c, p, events), Entered(texts, events), cfg, random);
    ChainAppends(c, p, texts, started, saves);
    SavesKeepRing(c, Chain(c, p, started), saves);
  }

  /**
   * The end of any chain in which each restart is given the key used before it: a value that Rekey does
   * not list is read if and only if the process started last was given the key it is under, and that
   * is not the stored key, which an external key makes it drop.
   */
  lemma UnlistedValueReadable(c: Cipher, p: Process, texts: seq<Option<string>>, events: seq<Event>,
                              cfg: Config, random: Key, saves: seq<Event>, key: Key, encoded: string, text: string)
    requires Reliable(c) && AllHeld(c, p, texts) && OnlySaves(saves) && random != ""
    requires KeysHandedOver(c, p, events + [Restart(cfg, random)])
    requires DistinctIds(c, Given(cfg, Chain(c, p, events).stored, random) + {key})
    requires text != "" && SealedUnder(c, key, encoded, text)
    ensures var q0, q := Chain(c, p, events), Chain(c, p, events + [Restart(cfg, random)] + saves);
      Decrypt(c, q.ring, encoded) ==
        if key in Given(cfg, q0.stored, random) && !(cfg.current != "" && q0.stored == Some(key)) then Plain(text)
        else UnknownKey
  {
    RingAtTheEnd(c, p, texts, events, cfg, random, saves);
    StartedReads(c, cfg, Chain(c, p, events).stored, random, key, encoded, text);
  }

  lemma {:induction false} HandedOverBefore(c: Cipher, p: Process, a: seq<Event>, b: seq<Event>)
    requires KeysHandedOver(c, p, a + b)
    ensures KeysHandedOver(c, p, a)
    decreases |b|
  {
    if b == [] {
      assert a + b == a;
    } else {
      assert (a + b)[..|a + b| - 1] == a + b[..|b| - 1];
      HandedOverBefore(c, p, a, b[..|b| - 1]);
    }
  }

  /**
   * Headers saved at some moment of such a chain, and not since: readable at its end if and only if the
   * process started last was given the key used at that moment, and did not drop it as the stored key.
   */
  lemma SavedHeadersReadable(c: Cipher, p: Process, texts: seq<Option<string>>, earlier: seq<Event>, later: seq<Event>,
                             cfg: Config, random: Key, saves: seq<Event>, headers: string, nonce: nat)
    requires Reliable(c) && AllHeld(c, p, texts) && OnlySaves(saves) && random != "" && headers != ""
    requires KeysHandedOver(c, p, earlier + later + [Restart(cfg, random)])
    requires var q0 := Chain(c, p, earlier + later);
      DistinctIds(c, Given(cfg, q0.stored, random) + {Chain(c, p, earlier).ring.current})
    ensures var saver, q0 := Chain(c, p, earlier), Chain(c, p, earlier + later);
      var q, key := Chain(c, p, earlier + later + [Restart(cfg, random)] + saves), saver.ring.current;
      Decrypt(c, q.ring, Encrypt(c, saver.ring, headers, nonce)) == Plain(headers) <==>
        key in Given(cfg, q0.stored, random) && !(cfg.current != "" && q0.stored == Some(key))
  {
    var saver := Chain(c, p, earlier);
    HandedOverBefore(c, p, earlier + later, [Restart(cfg, random)]);
    HandedOverBefore(c, p, earlier, later);
    RotationKeepsSecrets(c, p, texts, earlier);
    EncryptSeals(c, saver.ring, headers, nonce);
    UnlistedValueReadable(c, p, texts, earlier + later, cfg, random, saves, saver.ring.current,
                          Encrypt(c, saver.ring, headers, nonce), headers);
  }

  /** An unlisted value of the older format that is readable before Rekey stays so only without an external key. */
  lemma UnlistedOldFormat(c: Cipher, p: Process, texts: seq<Option<string>>, events: seq<Event>,
                          cfg: Config, random: Key, saves: seq<Event>, encoded: string, text: string)
    requires Reliable(c) && AllHeld(c, p, texts) && OnlySaves(saves)
    requires KeysHandedOver(c, p, events + [Restart(cfg, random)])
    requires encoded != "" && !StartsWith(encoded, CIPHER_PREFIX)
    requires Decrypt(c, Build(c, cfg, Chain(c, p, events).stored, random).0, encoded) == Plain(text)
    ensures Decrypt(c, Chain(c, p, events + [Restart(cfg, random)] + saves).ring, encoded) == Plain(text)
      <==> cfg.current == ""
  {
    RingAtTheEnd(c, p, texts, events, cfg, random, saves);
    UnlistedAcrossRekey(c, Build(c, cfg, Chain(c, p, events).stored, random).0, encoded);
  }

  /**
   * The documented rotation, with no key ever stored: run with k1, restart with k2 and previous k1, then
   * with k2 alone. Headers saved at the start cannot be read in the end; every listed secret can.
   */
  lemma HeadersLostOnRotation(c: Cipher, p: Process, texts: seq<Option<string>>, k1: Key, k2: Key, random: Key,
                              headers: string, nonce: nat)
    requires Reliable(c) && k1 != "" && k2 != "" && c.keyId(k1) != c.keyId(k2) && random != "" && headers != ""
    requires p.ring == Build(c, Config(k1, []), None, random).0 && p.stored == None && AllHeld(c, p, texts)
    ensures var first := [Restart(Config(k2, [k1]), random)];
      var both := first + [Restart(Config(k2, []), random)];
      var saved, q := Encrypt(c, p.ring, headers, nonce), Chain(c, p, both);
      && KeysHandedOver(c, p, both) && Chain(c, p, first).stored == q.stored == None
      && Decrypt(c, p.ring, saved) == Plain(headers)
      && Decrypt(c, Chain(c, p, first).ring, saved) == Plain(headers)
      && Decrypt(c, q.ring, saved) == UnknownKey
      && |q.columns| == |texts| && forall i :: 0 <= i < |texts| && texts[i].Some? && texts[i].value != "" ==>
           q.columns[i].Some? && Decrypt(c, q.ring, q.columns[i].value) == Plain(texts[i].value)
  {
    var first, last := [Restart(Config(k2, [k1]), random)], [Restart(Config(k2, []), random)];
    var saved := Encrypt(c, p.ring, headers, nonce);
    var q1, q := Chain(c, p, first), Chain(c, p, first + last);
    EncryptSeals(c, p.ring, headers, nonce);
    DecryptSealed(c, p.ring, k1, saved, headers);
    RotationIsHandedOver(c, p, texts, k1, k2, random);
    assert [] + first == first && first + last + [] == first + last;
    UnlistedValueReadable(c, p, texts, [], Config(k2, [k1]), random, [], k1, saved, headers);
    UnlistedValueReadable(c, p, texts, first, Config(k2, []), random, [], k1, saved, headers);
    forall i | 0 <= i < |texts| && texts[i].Some? && texts[i].value != ""
      ensures q.columns[i].Some? && Decrypt(c, q.ring, q.columns[i].value) == Plain(texts[i].value)
    {
      SecretsAreReadable(c, p, texts, first, Config(k2, []), random, [], i);
    }
    RotationKeepsSecrets(c, p, texts, first + last);
  }

  lemma RotationIsHandedOver(c: Cipher, p: Process, texts: seq<Option<string>>, k1: Key, k2: Key, random: Key)
    requires Reliable(c) && k1 != "" && k2 != "" && c.keyId(k1) != c.keyId(k2)
    requires p.ring.current == k1 && p.stored == None && AllHeld(c, p, texts)
    ensures var first := [Restart(Config(k2, [k1]), random)];
      var both := first + [Restart(Config(k2, []), random)];
      && KeysHandedOver(c, p, first) && KeysHandedOver(c, p, both)
      && Chain(c, p, first).stored == Chain(c, p, both).stored == None
      && Entered(texts, first) == Entered(texts, both) == texts
      && Given(Config(k2, [k1]), None, random) == {k1, k2} && Given(Config(k2, []), None, random) == {k2}
  {
    var first, last := [Restart(Config(k2, [k1]), random)], [Restart(Config(k2, []), random)];
    var both := first + last;
    assert Given(Config(k2, [k1]), None, random) == {k1, k2} && Given(Config(k2, []), None, random) == {k2};
    assert first[..0] == [] && KeysHandedOver(c, p, []);
    assert KeysHandedOver(c, p, first);
    assert Chain(c, p, first) == Restarted(c, p, Config(k2, [k1]), random);
    assert both[..1] == first && both[1] == last[0];
    assert KeysHandedOver(c, p, both);
    assert Chain(c, p, both) == Restarted(c, Chain(c, p, first), Config(k2, []), random);
  }

  // ---- With and without an external key ----

  /** Only restarts without an external key; the previous keys they list have ids of their own. */
  ghost predicate WithoutExternalKey(c: Cipher, stored: Option<Key>, events: seq<Event>) {
    forall i :: 0 <= i < |events| && events[i].Restart? ==>
      events[i].cfg.current == "" && DistinctIds(c, Given(events[i].cfg, stored, events[i].random))
  }

  /** A database that was never given an external key keeps its own: every restart is handed it. */
  lemma {:induction false} StoredKeyIsHandedOver(c: Cipher, p: Process, key: Key, events: seq<Event>)
    requires key != "" && p.stored == Some(key) && p.ring.current == key && WithoutExternalKey(c, p.stored, events)
    ensures KeysHandedOver(c, p, events)
    ensures Chain(c, p, events).stored == Some(key) && Chain(c, p, events).ring.current == key
  {
    if events != [] {
      var init := events[..|events| - 1];
      assert forall i :: 0 <= i < |init| ==> init[i] == events[i];
      StoredKeyIsHandedOver(c, p, key, init);
    }
  }

  /** The first start without any key makes one up, uses it and stores it. */
  lemma FirstStartStoresItsKey(c: Cipher, cfg: Config, stored: Option<Key>, random: Key)
    requires cfg.current == "" && StoredKey(stored).None?
    ensures var (ring, after) := Build(c, cfg, stored, random); ring.current == random && after == Some(random)
  {}

  /** So without an external key every secret stays readable through any restarts, with no help from outside. */
  lemma LegacyModeKeepsSecrets(c: Cipher, p: Process, texts: seq<Option<string>>, key: Key, events: seq<Event>,
                               cfg: Config, random: Key, saves: seq<Event>, i: nat)
    requires Reliable(c) && AllHeld(c, p, texts) && OnlySaves(saves) && random != ""
    requires key != "" && p.stored == Some(key) && p.ring.current == key
    requires WithoutExternalKey(c, p.stored, events + [Restart(cfg, random)])
    requires var now := Entered(texts, events + [Restart(cfg, random)] + saves);
      i < |now| && now[i].Some? && now[i].value != ""
    ensures var all := events + [Restart(cfg, random)] + saves;
      var q, now := Chain(c, p, all), Entered(texts, all);
      |q.columns| == |now| && q.columns[i].Some? && Decrypt(c, q.ring, q.columns[i].value) == Plain(now[i].value)
  {
    var started := events + [Restart(cfg, random)];
    assert started[|events|] == Restart(cfg, random);
    StoredKeyIsHandedOver(c, p, key, started);
    SecretsAreReadable(c, p, texts, events, cfg, random, saves, i);
  }

  /**
   * Once a process was started with an external key and handed the old one, the database holds no key and
   * every listed secret is under the external one.
   */
  lemma DatabaseHoldsNoKey(c: Cipher, p: Process, texts: seq<Option<string>>, events: seq<Event>,
                           cfg: Config, random: Key, saves: seq<Event>)
    requires Reliable(c) && AllHeld(c, p, texts) && OnlySaves(saves) && cfg.current != ""
    requires KeysHandedOver(c, p, events + [Restart(cfg, random)])
    ensures var q := Chain(c, p, events + [Restart(cfg, random)] + saves);
      && StoredKey(q.stored) == None && q.ring.current == cfg.current
      && AllSealed(c, q, Entered(texts, events + [Restart(cfg, random)] + saves))
  {
    var started := events + [Restart(cfg, random)];
    assert started[..|started| - 1] == events && started[|started| - 1] == Restart(cfg, random);
    RotationKeepsSecrets(c, p, texts, events);
    var q0, texts0 := Chain(c, p, events), Entered(texts, events);
    RestartRekeys(c, q0, texts0, cfg, random);
    EveryTextReadable(c, q0, texts0, cfg, random);
    ChainAppends(c, p, texts, started, saves);
    SavesStaySealed(c, Chain(c, p, started), texts0, saves);
    SavesKeepStored(c, Chain(c, p, started), saves);
  }

  lemma {:induction false} SavesKeepStored(c: Cipher, p: Process, saves: seq<Event>)
    requires OnlySaves(saves)
    ensures Chain(c, p, saves).stored == p.stored
  {
    if saves != [] {
      var init := saves[..|saves| - 1];
      assert forall i :: 0 <= i < |init| ==> init[i] == saves[i];
      SavesKeepStored(c, p, init);
    }
  }
}
