/**
 * Encryption of stored secrets and its key rotation across restarts
 * (backend/internal/store/crypto.go; secrets are written by backend/internal/store/settings.go and apis.go).
 */
module Keyring {
  import opened Strings

  type Key = string

  const CIPHER_PREFIX := "k1:"

  /** AES-GCM with base64, and the key id derived from SHA-256. The nonce is the third argument of seal. */
  datatype Cipher = Cipher(keyId: Key -> string, seal: (Key, string, nat) -> string,
                           open: (Key, string) -> Option<string>)

  /** What the rotation relies on: opening undoes sealing; base64 text and hexadecimal ids have no colon. */
  ghost predicate Reliable(c: Cipher) {
    && (forall k: Key, p: string, n: nat :: c.open(k, c.seal(k, p, n)) == Some(p))
    && (forall k: Key, p: string, n: nat :: ':' !in c.seal(k, p, n))
    && (forall k: Key :: ':' !in c.keyId(k))
  }

  datatype Secret = Plain(text: string) | Malformed | UnknownKey | Undecipherable

  /** keys holds the current key too, by key id; legacy is the key kept in the database. */
  datatype Ring = Ring(current: Key, currentId: string, keys: map<string, Key>, legacy: Option<Key>, external: bool)

  function FirstColon(s: string): Option<nat>
    ensures FirstColon(s).Some? ==>
      var i := FirstColon(s).value; i < |s| && s[i] == ':' && ':' !in s[..i]
    ensures FirstColon(s).None? ==> ':' !in s
  {
    if s == "" then None
    else if s[0] == ':' then Some(0)
    else
      var rest := FirstColon(s[1..]);
      if rest.None? then
        assert s == [s[0]] + s[1..];
        None
      else
        assert s[..rest.value + 1] == [s[0]] + s[1..][..rest.value];
        Some(rest.value + 1)
  }

  function OpenWith(c: Cipher, key: Key, data: string): Secret {
    match c.open(key, data)
    case Some(p) => Plain(p)
    case None => Undecipherable
  }

  function Encrypt(c: Cipher, r: Ring, plaintext: string, nonce: nat): string {
    if plaintext == "" then "" else CIPHER_PREFIX + r.currentId + ":" + c.seal(r.current, plaintext, nonce)
  }

  function Decrypt(c: Cipher, r: Ring, encoded: string): Secret {
    if encoded == "" then Plain("")
    else if StartsWith(encoded, CIPHER_PREFIX) then
      var rest := encoded[3..];
      match FirstColon(rest)
      case None => Malformed
      case Some(i) => if rest[..i] in r.keys then OpenWith(c, r.keys[rest[..i]], rest[i + 1..]) else UnknownKey
    else if r.legacy.None? then UnknownKey
    else OpenWith(c, r.legacy.value, encoded)
  }

  predicate NeedsRekey(r: Ring, encoded: string) {
    encoded != "" && !StartsWith(encoded, CIPHER_PREFIX + r.currentId + ":")
  }

  /** The configuration a process starts with: DATA_ENCRYPTION_KEY ("" when not set) and the previous keys. */
  datatype Config = Config(current: Key, previous: seq<Key>)

  function AddKeys(c: Cipher, keys: map<string, Key>, more: seq<Key>): map<string, Key> {
    if more == [] then keys
    else
      var rest := AddKeys(c, keys, more[..|more| - 1]);
      var key := more[|more| - 1];
      if key == "" then rest else rest[c.keyId(key) := key]
  }

  /** The key stored in the database; an empty one counts as none. */
  function StoredKey(stored: Option<Key>): Option<Key> {
    if stored == Some("") then None else stored
  }

  /** The keyring of a starting process; without any key a random one is created and stored. */
  function Build(c: Cipher, cfg: Config, stored: Option<Key>, random: Key): (Ring, Option<Key>) {
    var external := cfg.current != "";
    var legacy := if !external && StoredKey(stored).None? then Some(random) else StoredKey(stored);
    var current := if external then cfg.current else legacy.value;
    var keys := AddKeys(c, map[c.keyId(current) := current], cfg.previous);
    (Ring(current, c.keyId(current),
          if legacy.Some? then keys[c.keyId(legacy.value) := legacy.value] else keys, legacy, external),
     if !external && StoredKey(stored).None? then Some(random) else stored)
  }

  // ---- Rekey ----

  /** One listed column: None is an absent row. */
  type Column = Option<string>

  datatype Outcome = Done(columns: seq<Column>) | Failed(why: Secret)

  /** The listed columns re-encrypted under the current key, or the first value that cannot be read. */
  function Reencrypted(c: Cipher, r: Ring, columns: seq<Column>, nonce: nat): (o: Outcome)
    ensures o.Done? ==> |o.columns| == |columns|
  {
    if columns == [] then Done([])
    else
      var init, last := columns[..|columns| - 1], columns[|columns| - 1];
      var before := Reencrypted(c, r, init, nonce);
      if before.Failed? then before
      else if last.None? || !NeedsRekey(r, last.value) then Done(before.columns + [last])
      else
        var plain := Decrypt(c, r, last.value);
        if plain.Plain? then Done(before.columns + [Some(Encrypt(c, r, plain.text, nonce + |init|))]) else Failed(plain)
  }

  /** How many columns are rewritten before the end or the first value that cannot be read. */
  function Rewrites(c: Cipher, r: Ring, columns: seq<Column>, nonce: nat): nat {
    if columns == [] then 0
    else
      var init, last := columns[..|columns| - 1], columns[|columns| - 1];
      Rewrites(c, r, init, nonce) +
        if Reencrypted(c, r, init, nonce).Done? && last.Some? && NeedsRekey(r, last.value)
           && Decrypt(c, r, last.value).Plain?
        then 1 else 0
  }

  /** With an external key the stored key is dropped afterwards, from the database and from the keyring. */
  function AfterRekey(c: Cipher, r: Ring): Ring {
    if r.external && r.legacy.Some? then r.(keys := r.keys - {c.keyId(r.legacy.value)}, legacy := None) else r
  }

  /** The database a Store works on, with the keyring of the running process. */
  class Store {
    const cipher: Cipher
    var ring: Ring
    var columns: seq<Column>
    var stored: Option<Key>
    var nonce: nat

    constructor (cipher: Cipher, cfg: Config, columns: seq<Column>, stored: Option<Key>, random: Key, nonce: nat)
      ensures this.cipher == cipher && this.columns == columns && this.nonce == nonce
      ensures (ring, this.stored) == Build(cipher, cfg, stored, random)
    {
      this.cipher := cipher;
      this.columns := columns;
      this.nonce := nonce;
      var legacy := if stored == Some("") then None else stored;
      var after := stored;
      var current := cfg.current;
      if cfg.current == "" {
        if legacy.None? {
          legacy := Some(random);
          after := legacy;
        }
        current := legacy.value;
      }
      var keys := map[cipher.keyId(current) := current];
      for i := 0 to |cfg.previous|
        invariant keys == AddKeys(cipher, map[cipher.keyId(current) := current], cfg.previous[..i])
      {
        assert cfg.previous[..i + 1][..i] == cfg.previous[..i];
        if cfg.previous[i] != "" {
          keys := keys[cipher.keyId(cfg.previous[i]) := cfg.previous[i]];
        }
      }
      assert cfg.previous[..|cfg.previous|] == cfg.previous;
      if legacy.Some? {
        keys := keys[cipher.keyId(legacy.value) := legacy.value];
      }
      this.ring := Ring(current, cipher.keyId(current), keys, legacy, cfg.current != "");
      this.stored := after;
    }

    /** Re-encrypts what is not under the current key; a failure leaves everything as it was. */
    method Rekey() returns (ok: bool, reencrypted: nat, legacyKeyRemoved: bool)
      modifies this
      ensures ok <==> Reencrypted(cipher, old(ring), old(columns), old(nonce)).Done?
      ensures reencrypted == Rewrites(cipher, old(ring), old(columns), old(nonce))
      ensures !ok ==> columns == old(columns) && stored == old(stored) && ring == old(ring)
      ensures ok ==>
        && Done(columns) == Reencrypted(cipher, old(ring), old(columns), old(nonce))
        && ring == AfterRekey(cipher, old(ring))
        && legacyKeyRemoved == (old(ring).external && old(ring).legacy.Some?)
        && stored == if legacyKeyRemoved then None else old(stored)
    {
      reencrypted, legacyKeyRemoved := 0, false;
      var out: seq<Column> := [];
      var i := 0;
      while i < |columns|
        invariant 0 <= i <= |columns| && |out| == i
        invariant Reencrypted(cipher, ring, columns[..i], nonce) == Done(out)
        invariant reencrypted == Rewrites(cipher, ring, columns[..i], nonce)
      {
        assert columns[..i + 1][..i] == columns[..i];
        var value := columns[i];
        if value.Some? && NeedsRekey(ring, value.value) {
          var plain := Decrypt(cipher, ring, value.value);
          if !plain.Plain? {
            FailureStays(cipher, ring, columns, i + 1, nonce);
            return false, reencrypted, false;
          }
          value := Some(Encrypt(cipher, ring, plain.text, nonce + i));
          reencrypted := reencrypted + 1;
        }
        out := out + [value];
        i := i + 1;
      }
      assert columns[..i] == columns;
      columns := out;
      nonce := nonce + |columns|;
      if ring.external && ring.legacy.Some? {
        stored := None;
        legacyKeyRemoved := true;
        ring := ring.(keys := ring.keys - {cipher.keyId(ring.legacy.value)}, legacy := None);
      }
      ok := true;
    }

    /** Stores a secret under the current key. */
    method Write(i: nat, plaintext: string)
      requires i < |columns|
      modifies this
      ensures columns == old(columns)[i := Some(Encrypt(cipher, ring, plaintext, old(nonce)))]
      ensures ring == old(ring) && stored == old(stored)
    {
      columns := columns[i := Some(Encrypt(cipher, ring, plaintext, nonce))];
      nonce := nonce + 1;
    }
  }

  lemma {:induction false} FailureStays(c: Cipher, r: Ring, columns: seq<Column>, i: nat, nonce: nat)
    requires i <= |columns| && Reencrypted(c, r, columns[..i], nonce).Failed?
    ensures Reencrypted(c, r, columns, nonce) == Reencrypted(c, r, columns[..i], nonce)
    ensures Rewrites(c, r, columns, nonce) == Rewrites(c, r, columns[..i], nonce)
    decreases |columns|
  {
    if i == |columns| {
      assert columns[..i] == columns;
    } else {
      var init := columns[..|columns| - 1];
      assert init[..i] == columns[..i];
      FailureStays(c, r, init, i, nonce);
    }
  }
}
