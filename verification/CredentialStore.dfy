/** The sealed credential store of internal/data/kubernetes_credential_store.go: the exact
    byte layout of the authenticated data, an ideal AEAD, and master-key rotation. */
module CredentialStore {
  import opened Order

  type Bytes = seq<int>

  // ---- Additional authenticated data ----

  const TWO32 := 0x1_0000_0000
  const TWO64 := 0x1_0000_0000_0000_0000

  function Power256(n: nat): (r: nat)
    ensures r > 0
  {
    if n == 0 then 1 else 256 * Power256(n - 1)
  }

  /** The `n` low-order bytes of `v`, most significant first. */
  function BigEndian(v: nat, n: nat): (r: Bytes)
    ensures |r| == n
    ensures forall i :: 0 <= i < n ==> 0 <= r[i] < 256
  {
    if n == 0 then [] else BigEndian(v / 256, n - 1) + [v % 256]
  }

  lemma {:induction false} BigEndianInjective(v: nat, w: nat, n: nat)
    requires v < Power256(n) && w < Power256(n) && BigEndian(v, n) == BigEndian(w, n)
    ensures v == w
  {
    if n > 0 {
      var a, b := BigEndian(v / 256, n - 1), BigEndian(w / 256, n - 1);
      assert BigEndian(v, n)[..n - 1] == a && BigEndian(w, n)[..n - 1] == b;
      assert BigEndian(v, n)[n - 1] == v % 256 && BigEndian(w, n)[n - 1] == w % 256;
      BigEndianInjective(v / 256, w / 256, n - 1);
    }
  }

  lemma Powers()
    ensures Power256(4) == TWO32 && Power256(8) == TWO64
  {
    assert Power256(2) == 65536;
    assert Power256(4) == 65536 * Power256(2);
    assert Power256(6) == 65536 * Power256(4);
    assert Power256(8) == 65536 * Power256(6);
  }

  /** binary.Write of uint32(len(s)), then the string. The length is truncated to 32 bits. */
  function LengthPrefixed(s: Bytes): Bytes {
    BigEndian(|s| % TWO32, 4) + s
  }

  /** uint64(revision) of a signed 64-bit revision. */
  function Unsigned(revision: int): nat {
    revision % TWO64
  }

  /** buildAAD. */
  function BuildAAD(clusterId: Bytes, credRef: Bytes, revision: int): Bytes {
    LengthPrefixed(clusterId) + (LengthPrefixed(credRef) + BigEndian(Unsigned(revision), 8))
  }

  predicate Int64(v: int) {
    -0x8000_0000_0000_0000 <= v < 0x8000_0000_0000_0000
  }

  /** A length-prefixed string can be read back from the front of any byte string. */
  lemma PrefixSplits(a: Bytes, b: Bytes, x: Bytes, y: Bytes)
    requires |a| < TWO32 && |b| < TWO32
    requires LengthPrefixed(a) + x == LengthPrefixed(b) + y
    ensures a == b && x == y
  {
    var l, r := LengthPrefixed(a) + x, LengthPrefixed(b) + y;
    assert l[..4] == BigEndian(|a| % TWO32, 4) && r[..4] == BigEndian(|b| % TWO32, 4);
    Powers();
    BigEndianInjective(|a| % TWO32, |b| % TWO32, 4);
    assert l[4..4 + |a|] == a && r[4..4 + |b|] == b;
    assert l[4 + |a|..] == x && r[4 + |b|..] == y;
  }

  /** The layout is unambiguous: strings shorter than 2^32 bytes and 64-bit revisions are
      determined by the authenticated data. */
  lemma AADInjective(c1: Bytes, r1: Bytes, v1: int, c2: Bytes, r2: Bytes, v2: int)
    requires |c1| < TWO32 && |r1| < TWO32 && |c2| < TWO32 && |r2| < TWO32 && Int64(v1) && Int64(v2)
    requires BuildAAD(c1, r1, v1) == BuildAAD(c2, r2, v2)
    ensures c1 == c2 && r1 == r2 && v1 == v2
  {
    var e1, e2 := BigEndian(Unsigned(v1), 8), BigEndian(Unsigned(v2), 8);
    PrefixSplits(c1, c2, LengthPrefixed(r1) + e1, LengthPrefixed(r2) + e2);
    PrefixSplits(r1, r2, e1, e2);
    RevisionInjective(v1, v2);
  }

  lemma RevisionInjective(v: int, w: int)
    requires Int64(v) && Int64(w) && BigEndian(Unsigned(v), 8) == BigEndian(Unsigned(w), 8)
    ensures v == w
  {
    Powers();
    BigEndianInjective(Unsigned(v), Unsigned(w), 8);
  }

  function Zeros(n: nat): (r: Bytes)
    ensures |r| == n && forall i :: 0 <= i < n ==> r[i] == 0
  {
    seq(n, i => 0)
  }

  /** The length bound is sharp: at 2^32 bytes the truncated length prefix is zero, and two
      different identities get the same authenticated data. */
  lemma AADCollidesAtTwo32(revision: int)
    ensures Zeros(TWO32) != [] && BuildAAD(Zeros(TWO32), [], revision) == BuildAAD([], Zeros(TWO32), revision)
  {
    var z := BigEndian(0, 4);
    ZeroBytes(4);
    assert |Zeros(TWO32)| % TWO32 == 0;
    var e := BigEndian(Unsigned(revision), 8);
    assert z + Zeros(TWO32) + (z + [] + e) == z + [] + (z + Zeros(TWO32) + e);
  }

  lemma {:induction false} ZeroBytes(n: nat)
    ensures forall i :: 0 <= i < n ==> BigEndian(0, n)[i] == 0
  {
    if n > 0 {
      ZeroBytes(n - 1);
    }
  }

  // ---- Ideal AEAD ----

  type Key = nat
  type Nonce = nat

  datatype Credential = Credential(kind: string, body: Bytes)

  /** A ciphertext either was sealed, and then says with what, or is junk. Opening follows
      sections 7.1 and 7.2 of NIST SP 800-38D with the tag check idealized: it succeeds
      only with the same key, nonce and authenticated data. */
  datatype Ciphertext =
    | Sealed(key: Key, nonce: Nonce, plaintext: Credential, aad: Bytes)
    | Junk(bytes: Bytes)

  function Seal(key: Key, nonce: Nonce, plaintext: Credential, aad: Bytes): Ciphertext {
    Sealed(key, nonce, plaintext, aad)
  }

  function OpenSealed(key: Key, nonce: Nonce, c: Ciphertext, aad: Bytes): Option<Credential> {
    if c.Sealed? && c.key == key && c.nonce == nonce && c.aad == aad then Some(c.plaintext) else None
  }

  datatype Locator = Locator(cluster: Bytes, credRef: Bytes, revision: int)

  /** Identities whose fields fit the column types: strings below 2^32 bytes, a 64-bit revision. */
  predicate Fits(l: Locator) {
    |l.cluster| < TWO32 && |l.credRef| < TWO32 && Int64(l.revision)
  }

  function AADOf(l: Locator): Bytes {
    BuildAAD(l.cluster, l.credRef, l.revision)
  }

  /** A ciphertext sealed for one identity never opens for another, under any key and nonce. */
  lemma SealBindsIdentity(sealedFor: Locator, openedFor: Locator, k1: Key, n1: Nonce, k2: Key, n2: Nonce,
                          plaintext: Credential)
    requires Fits(sealedFor) && Fits(openedFor)
    ensures OpenSealed(k2, n2, Seal(k1, n1, plaintext, AADOf(sealedFor)), AADOf(openedFor)) ==
            if sealedFor == openedFor && k1 == k2 && n1 == n2 then Some(plaintext) else None
  {
    if AADOf(sealedFor) == AADOf(openedFor) {
      AADInjective(sealedFor.cluster, sealedFor.credRef, sealedFor.revision,
                   openedFor.cluster, openedFor.credRef, openedFor.revision);
    }
  }

  // ---- Rows ----

  datatype Row = Row(cluster: Bytes, revision: int, ciphertext: Ciphertext, nonce: Nonce, keyVersion: string,
                     kind: string)

  type Rows = map<Bytes, Row>
  type Keys = map<string, Key>

  /** Get: the drift check, the key lookup, the decryption, the kind check. */
  function Read(rows: Rows, keys: Keys, l: Locator): Option<Credential> {
    if l.credRef !in rows then None
    else
      var row := rows[l.credRef];
      if row.cluster != l.cluster || row.revision != l.revision || row.keyVersion !in keys then None
      else
        var plaintext := OpenSealed(keys[row.keyVersion], row.nonce, row.ciphertext, AADOf(l));
        if plaintext.Some? && plaintext.value.kind == row.kind then plaintext else None
  }

  ghost predicate SameReads(a: Rows, b: Rows, keys: Keys) {
    forall l: Locator :: Read(a, keys, l) == Read(b, keys, l)
  }

  /** The rows RotateKey selects. */
  function AtVersion(rows: Rows, version: string): set<Bytes> {
    set r | r in rows && rows[r].keyVersion == version
  }

  function Smaller(a: nat, b: nat): nat {
    if a < b then a else b
  }

  /** Every row of the version can be decrypted. */
  ghost predicate AllOpen(rows: Rows, keys: Keys, version: string) {
    forall r :: r in rows && rows[r].keyVersion == version ==> RowSecret(keys, r, rows[r]).Some?
  }

  /** What RotateKey decrypts from a row, with the authenticated data rebuilt from the row itself. */
  function RowSecret(keys: Keys, credRef: Bytes, row: Row): Option<Credential> {
    if row.keyVersion !in keys then None
    else OpenSealed(keys[row.keyVersion], row.nonce, row.ciphertext, BuildAAD(row.cluster, credRef, row.revision))
  }

  /** The row RotateKey writes back. */
  function Rewritten(row: Row, credRef: Bytes, secret: Credential, key: Key, version: string, nonce: Nonce): Row {
    row.(ciphertext := Seal(key, nonce, secret, BuildAAD(row.cluster, credRef, row.revision)),
         nonce := nonce, keyVersion := version)
  }

  /** Re-encrypting one row changes no read, whatever the locator. This holds even when the row
      was loaded earlier and has been re-encrypted by someone else since, as long as it still
      holds the same secret. */
  lemma RewriteKeepsReads(rows: Rows, keys: Keys, credRef: Bytes, loaded: Row, version: string, nonce: Nonce)
    requires credRef in rows && version in keys
    requires RowSecret(keys, credRef, loaded).Some? &&
             RowSecret(keys, credRef, rows[credRef]) == RowSecret(keys, credRef, loaded)
    requires loaded.cluster == rows[credRef].cluster && loaded.revision == rows[credRef].revision
    ensures var row := Rewritten(rows[credRef], credRef, RowSecret(keys, credRef, loaded).value, keys[version],
                                 version, nonce);
            SameReads(rows, rows[credRef := row], keys) &&
            RowSecret(keys, credRef, row) == RowSecret(keys, credRef, rows[credRef])
  {
  }

  /** RotateKey has re-encrypted the rows of `before` at the version, except those in `todo`. */
  ghost predicate RotatedExcept(before: Rows, rows: Rows, keys: Keys, todo: set<Bytes>, fromVersion: string,
                                toVersion: string) {
    rows.Keys == before.Keys && todo <= AtVersion(before, fromVersion) &&
    (forall r :: r in todo ==> rows[r] == before[r]) &&
    (forall r :: r in before && before[r].keyVersion != fromVersion ==> rows[r] == before[r]) &&
    (forall r :: r in before && before[r].keyVersion == fromVersion && r !in todo ==>
       rows[r].keyVersion == toVersion && RowSecret(keys, r, before[r]).Some? &&
       RowSecret(keys, r, rows[r]) == RowSecret(keys, r, before[r]))
  }

  lemma RotateNext(before: Rows, rows: Rows, keys: Keys, todo: set<Bytes>, fromVersion: string, toVersion: string,
                   credRef: Bytes, nonce: Nonce)
    requires RotatedExcept(before, rows, keys, todo, fromVersion, toVersion) && credRef in todo && toVersion in keys
    requires RowSecret(keys, credRef, rows[credRef]).Some?
    ensures var row := Rewritten(rows[credRef], credRef, RowSecret(keys, credRef, rows[credRef]).value, keys[toVersion],
                                 toVersion, nonce);
            RotatedExcept(before, rows[credRef := row], keys, todo - {credRef}, fromVersion, toVersion) &&
            SameReads(rows, rows[credRef := row], keys)
  {
    RewriteKeepsReads(rows, keys, credRef, rows[credRef], toVersion, nonce);
  }

  lemma RotatedLeaves(before: Rows, rows: Rows, keys: Keys, todo: set<Bytes>, fromVersion: string, toVersion: string)
    requires RotatedExcept(before, rows, keys, todo, fromVersion, toVersion) && fromVersion != toVersion
    ensures AtVersion(rows, fromVersion) == todo
  {
  }

  class Store {
    const keys: Keys
    const active: string
    var rows: Rows

    /** NewCredentialStore fails unless the active version has a key. */
    ghost predicate Valid()
    {
      active in keys
    }

    constructor (keys: Keys, active: string)
      requires active in keys
      ensures Valid() && this.keys == keys && this.active == active && rows == map[]
    {
      this.keys := keys;
      this.active := active;
      this.rows := map[];
    }

    /** PutWithRef. `persisted` is the database's answer where the table's own constraints allow
        the row: the ref is the primary key and a cluster has one credential per revision. */
    method PutWithRef(cluster: Bytes, credRef: Bytes, revision: int, value: Credential, nonce: Nonce, persisted: bool)
      returns (r: Option<Locator>)
      requires Valid()
      modifies this`rows
      ensures r.Some? <==>
              credRef != [] && persisted && credRef !in old(rows) &&
              !exists o :: o in old(rows) && old(rows)[o].cluster == cluster && old(rows)[o].revision == revision
      ensures r.None? ==> rows == old(rows)
      ensures r.Some? ==>
                r.value == Locator(cluster, credRef, revision) && Read(rows, keys, r.value) == Some(value) &&
                forall l: Locator :: l != r.value ==> Read(rows, keys, l) == Read(old(rows), keys, l)
    {
      if credRef == [] {
        return None;
      }
      var sealedValue := Seal(keys[active], nonce, value, BuildAAD(cluster, credRef, revision));
      if !persisted || credRef in rows ||
         exists o :: o in rows && rows[o].cluster == cluster && rows[o].revision == revision {
        return None;
      }
      rows := rows[credRef := Row(cluster, revision, sealedValue, nonce, active, value.kind)];
      return Some(Locator(cluster, credRef, revision));
    }

    /** Get. */
    method Get(l: Locator) returns (r: Option<Credential>)
      ensures r == Read(rows, keys, l)
    {
      r := Read(rows, keys, l);
    }

    /** Delete: idempotent, and no other locator notices. */
    method Delete(credRef: Bytes)
      modifies this`rows
      ensures rows == old(rows) - {credRef}
      ensures forall l: Locator ::
                Read(rows, keys, l) == if l.credRef == credRef then None else Read(old(rows), keys, l)
    {
      rows := rows - {credRef};
    }

    /** RotateKey. `nonces` is what the random source gives for each row. `writes` bounds
        how many rows are written back before the run is cut short.
        However the run ends, every Get answers as before, and between different versions the rows
        at `fromVersion` are fewer by the count. The run is complete exactly when both keys are
        loaded, every row at `fromVersion` opens and the writes suffice; without a row that does
        not open it goes as far as the writes allow. */
    method RotateKey(fromVersion: string, toVersion: string, nonces: Bytes -> Nonce, writes: nat)
      returns (count: nat, complete: bool)
      modifies this`rows
      ensures SameReads(old(rows), rows, keys) && rows.Keys == old(rows).Keys
      ensures count <= |AtVersion(old(rows), fromVersion)|
      ensures complete <==>
              fromVersion in keys && toVersion in keys && |AtVersion(old(rows), fromVersion)| <= writes &&
              AllOpen(old(rows), keys, fromVersion)
      ensures complete ==> count == |AtVersion(old(rows), fromVersion)|
      ensures fromVersion in keys && toVersion in keys && AllOpen(old(rows), keys, fromVersion) ==>
                count == Smaller(writes, |AtVersion(old(rows), fromVersion)|)
      ensures fromVersion != toVersion ==>
                |AtVersion(rows, fromVersion)| == |AtVersion(old(rows), fromVersion)| - count
      ensures complete && fromVersion != toVersion ==> AtVersion(rows, fromVersion) == {}
      ensures complete ==> forall r :: r in rows && old(rows)[r].keyVersion == fromVersion ==>
                rows[r].keyVersion == toVersion
      ensures forall r :: r in rows ==>
                rows[r] == old(rows)[r] || (old(rows)[r].keyVersion == fromVersion && rows[r].keyVersion == toVersion)
    {
      count := 0;
      if fromVersion !in keys || toVersion !in keys {
        return 0, false;
      }
      var todo := AtVersion(rows, fromVersion);
      ghost var all := todo;
      while todo != {}
        invariant count + |todo| == |all| && count <= writes
        invariant RotatedExcept(old(rows), rows, keys, todo, fromVersion, toVersion)
        invariant SameReads(old(rows), rows, keys)
        decreases todo
      {
        var credRef :| credRef in todo;
        var row := rows[credRef];
        var secret := OpenSealed(keys[fromVersion], row.nonce, row.ciphertext,
                                 BuildAAD(row.cluster, credRef, row.revision));
        if secret.None? || count == writes {
          if fromVersion != toVersion {
            RotatedLeaves(old(rows), rows, keys, todo, fromVersion, toVersion);
          }
          return count, false;
        }
        RotateNext(old(rows), rows, keys, todo, fromVersion, toVersion, credRef, nonces(credRef));
        rows := rows[credRef := Rewritten(row, credRef, secret.value, keys[toVersion], toVersion, nonces(credRef))];
        todo := todo - {credRef};
        count := count + 1;
      }
      if fromVersion != toVersion {
        RotatedLeaves(old(rows), rows, keys, todo, fromVersion, toVersion);
      }
      complete := true;
    }
  }
}
