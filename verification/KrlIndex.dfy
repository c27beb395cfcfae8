/** Revoking and checking keys in memory: the ssh_krl_revoke_* functions, is_key_revoked and
    ssh_krl_check_key of ssh/krl.c. */
module KrlIndex {
  import opened Wire
  import opened SerialTree
  import opened KrlParse
  import opened KrlGenerate

  // ----- Trees of blobs and of key IDs

  /** memcmp of the first `n` bytes. */
  function MemCmp(a: Bytes, b: Bytes, n: nat): int
    requires n <= |a| && n <= |b|
    decreases n
  {
    if n == 0 then 0 else if a[0] != b[0] then a[0] - b[0] else MemCmp(a[1..], b[1..], n - 1)
  }

  /** blob_cmp; for C strings it orders like the strcmp of key_id_cmp. */
  function BlobCmp(a: Bytes, b: Bytes): int
  {
    if |a| != |b| then
      var r := MemCmp(a, b, if |a| < |b| then |a| else |b|);
      if r != 0 then r else if |a| > |b| then 1 else -1
    else MemCmp(a, b, |a|)
  }

  lemma {:induction false} MemCmpOrder(a: Bytes, b: Bytes, n: nat)
    requires n <= |a| && n <= |b|
    ensures MemCmp(a, b, n) == -MemCmp(b, a, n)
    ensures MemCmp(a, b, n) == 0 <==> a[..n] == b[..n]
    decreases n
  {
    if n > 0 {
      MemCmpOrder(a[1..], b[1..], n - 1);
      assert a[..n] == [a[0]] + a[1..][..n - 1];
      assert b[..n] == [b[0]] + b[1..][..n - 1];
      if a[0] == b[0] && a[..n] == b[..n] {
        assert a[1..][..n - 1] == a[..n][1..] && b[1..][..n - 1] == b[..n][1..];
      }
      assert a[..n][0] == a[0] && b[..n][0] == b[0];
    }
  }

  /** The comparator distinguishes all blobs and is antisymmetric. */
  lemma BlobCmpOrder(a: Bytes, b: Bytes)
    ensures BlobCmp(a, b) == 0 <==> a == b
    ensures BlobCmp(a, b) < 0 <==> BlobCmp(b, a) > 0
  {
    MemCmpOrder(a, b, if |a| < |b| then |a| else |b|);
    if |a| == |b| { assert a[..|a|] == a && b[..|b|] == b; }
  }

  /** The dictionary order on byte strings. */
  ghost predicate Before(a: Bytes, b: Bytes)
    decreases |a|
  {
    b != [] && (a == [] || a[0] < b[0] || (a[0] == b[0] && Before(a[1..], b[1..])))
  }

  lemma {:induction false} MemCmpBefore(a: Bytes, b: Bytes, n: nat)
    requires n == if |a| < |b| then |a| else |b|
    ensures Before(a, b) <==> MemCmp(a, b, n) < 0 || (MemCmp(a, b, n) == 0 && |a| < |b|)
    decreases |a|
  {
    if n > 0 && a[0] == b[0] { MemCmpBefore(a[1..], b[1..], n - 1); }
  }

  /** The comparator is the dictionary order. */
  lemma {:induction false} BlobCmpIsBefore(a: Bytes, b: Bytes)
    ensures BlobCmp(a, b) < 0 <==> Before(a, b)
  {
    MemCmpBefore(a, b, if |a| < |b| then |a| else |b|);
  }

  lemma {:induction false} BeforeTransitive(a: Bytes, b: Bytes, c: Bytes)
    requires Before(a, b) && Before(b, c)
    ensures Before(a, c)
    decreases |a|
  {
    if a != [] && a[0] == b[0] && b[0] == c[0] { BeforeTransitive(a[1..], b[1..], c[1..]); }
  }

  /** It is transitive, so that with BlobCmpOrder it is a strict total order. */
  lemma BlobCmpTransitive(a: Bytes, b: Bytes, c: Bytes)
    requires BlobCmp(a, b) < 0 && BlobCmp(b, c) < 0
    ensures BlobCmp(a, c) < 0
  {
    hide BlobCmp;
    BlobCmpIsBefore(a, b);
    BlobCmpIsBefore(b, c);
    BlobCmpIsBefore(a, c);
    BeforeTransitive(a, b, c);
  }

  /** A search tree of blobs, in whatever shape the balancing has left it. */
  datatype Blobs = Empty | Fork(left: Blobs, blob: Bytes, right: Blobs)

  ghost function Members(t: Blobs): set<Bytes>
  {
    match t
    case Empty => {}
    case Fork(l, b, r) => Members(l) + {b} + Members(r)
  }

  ghost predicate Ordered(t: Blobs)
  {
    match t
    case Empty => true
    case Fork(l, b, r) =>
      && Ordered(l) && Ordered(r)
      && (forall x | x in Members(l) :: BlobCmp(x, b) < 0)
      && (forall x | x in Members(r) :: BlobCmp(x, b) > 0)
  }

  /** RB_FIND in a tree of blobs. */
  predicate HasBlob(t: Blobs, key: Bytes)
  {
    match t
    case Empty => false
    case Fork(l, b, r) =>
      var c := BlobCmp(key, b);
      if c < 0 then HasBlob(l, key) else if c > 0 then HasBlob(r, key) else true
  }

  lemma {:induction false} HasBlobFindsMember(t: Blobs, key: Bytes)
    requires Ordered(t)
    ensures HasBlob(t, key) <==> key in Members(t)
  {
    match t {
      case Empty =>
      case Fork(l, b, r) =>
        BlobCmpOrder(key, b);
        HasBlobFindsMember(l, key);
        HasBlobFindsMember(r, key);
    }
  }

  /** RB_INSERT before the rebalancing; an equal blob is left alone. */
  function InsertBlob(t: Blobs, key: Bytes): Blobs
  {
    match t
    case Empty => Fork(Empty, key, Empty)
    case Fork(l, b, r) =>
      var c := BlobCmp(key, b);
      if c < 0 then Fork(InsertBlob(l, key), b, r) else if c > 0 then Fork(l, b, InsertBlob(r, key)) else t
  }

  lemma {:induction false} InsertBlobKeepsOrder(t: Blobs, key: Bytes)
    requires Ordered(t)
    ensures Ordered(InsertBlob(t, key)) && Members(InsertBlob(t, key)) == Members(t) + {key}
  {
    match t {
      case Empty =>
      case Fork(l, b, r) =>
        BlobCmpOrder(key, b);
        if BlobCmp(key, b) < 0 { InsertBlobKeepsOrder(l, key); }
        if BlobCmp(key, b) > 0 { InsertBlobKeepsOrder(r, key); }
    }
  }

  /** The rotations of the rebalancing, at the root of any subtree. */
  function RotateRight(t: Blobs): Blobs
  {
    match t
    case Fork(Fork(a, x, b), y, c) => Fork(a, x, Fork(b, y, c))
    case _ => t
  }

  function RotateLeft(t: Blobs): Blobs
  {
    match t
    case Fork(a, x, Fork(b, y, c)) => Fork(Fork(a, x, b), y, c)
    case _ => t
  }

  lemma {:induction false} RotationsKeepOrder(t: Blobs)
    requires Ordered(t)
    ensures Ordered(RotateRight(t)) && Members(RotateRight(t)) == Members(t)
    ensures Ordered(RotateLeft(t)) && Members(RotateLeft(t)) == Members(t)
  {
    if t.Fork? && t.left.Fork? { RotatesRight(t.left.left, t.left.blob, t.left.right, t.blob, t.right); }
    if t.Fork? && t.right.Fork? { RotatesLeft(t.left, t.blob, t.right.left, t.right.blob, t.right.right); }
  }

  lemma {:induction false} RotatesRight(a: Blobs, x: Bytes, b: Blobs, y: Bytes, c: Blobs)
    requires Ordered(Fork(Fork(a, x, b), y, c))
    ensures Ordered(Fork(a, x, Fork(b, y, c)))
            && Members(Fork(a, x, Fork(b, y, c))) == Members(Fork(Fork(a, x, b), y, c))
  {
    hide BlobCmp;
    BlobCmpOrder(x, y);
    assert BlobCmp(x, y) < 0;
    forall z | z in Members(c) ensures BlobCmp(z, x) > 0 {
      BlobCmpOrder(y, z);
      BlobCmpOrder(x, z);
      BlobCmpTransitive(x, y, z);
    }
  }

  lemma {:induction false} RotatesLeft(a: Blobs, x: Bytes, b: Blobs, y: Bytes, c: Blobs)
    requires Ordered(Fork(a, x, Fork(b, y, c)))
    ensures Ordered(Fork(Fork(a, x, b), y, c))
            && Members(Fork(Fork(a, x, b), y, c)) == Members(Fork(a, x, Fork(b, y, c)))
  {
    hide BlobCmp;
    BlobCmpOrder(x, y);
    assert BlobCmp(y, x) > 0;
    forall z | z in Members(a) ensures BlobCmp(z, y) < 0 {
      BlobCmpTransitive(z, x, y);
    }
  }

  // ----- Keys

  datatype Cert = Cert(ca: Key, keyId: Bytes, serial: U64, legacy: bool)

  /** A public key: its plain blob, its SHA1 fingerprint, and its certificate if it is one. */
  datatype Key = Key(blob: Bytes, sha1: Bytes, cert: Option<Cert>)

  // ----- Revoking

  datatype Index = Index(keys: set<Bytes>, sha1s: set<Bytes>, certs: Certs)

  datatype Op =
    | BySerialRange(ca: Bytes, lo: U64, hi: U64)
    | ByKeyId(ca: Bytes, keyId: Bytes)
    | Explicit(blob: Bytes)
    | BySha1(sha1: Bytes)

  /** ssh_krl_revoke_key: a hash for a plain key, the key ID for a certificate without a
      serial, the serial otherwise. */
  function RevokeKey(key: Key): Op
  {
    match key.cert
    case None => BySha1(key.sha1)
    case Some(c) =>
      if c.legacy || c.serial == 0 then ByKeyId(c.ca.blob, c.keyId)
      else BySerialRange(c.ca.blob, c.serial, c.serial)
  }

  function Apply(idx: Index, op: Op): Index
  {
    match op
    case BySerialRange(ca, lo, hi) =>
      var rc := RevokeSerials(Lookup(idx.certs, ca), lo, hi);
      if rc.Err? then idx else idx.(certs := idx.certs[ca := rc.value])
    case ByKeyId(ca, id) =>
      var rc := Lookup(idx.certs, ca);
      idx.(certs := idx.certs[ca := rc.(keyIds := rc.keyIds + {id})])
    case Explicit(b) => idx.(keys := idx.keys + {b})
    case BySha1(h) => idx.(sha1s := idx.sha1s + {h})
  }

  function Run(ops: seq<Op>): Index
  {
    if ops == [] then Index({}, {}, map[]) else Apply(Run(ops[..|ops| - 1]), ops[|ops| - 1])
  }

  // ----- Checking

  /** The trees that a check searches: the two of the list, and the two of the key's CA. */
  datatype Trees = Trees(keys: Blobs, sha1s: Blobs, ids: Blobs, serials: Shape)

  ghost predicate Holds(idx: Index, key: Key, t: Trees)
  {
    && Ordered(t.keys) && Members(t.keys) == idx.keys
    && Ordered(t.sha1s) && Members(t.sha1s) == idx.sha1s
    && (key.cert.Some? && key.cert.value.ca.blob in idx.certs ==>
          var rc := idx.certs[key.cert.value.ca.blob];
          && Ordered(t.ids) && Members(t.ids) == rc.keyIds
          && InOrder(t.serials) == rc.serials)
  }

  /** is_key_revoked. */
  predicate IsKeyRevoked(idx: Index, key: Key, t: Trees)
  {
    if HasBlob(t.sha1s, key.sha1) then true
    else if HasBlob(t.keys, key.blob) then true
    else match key.cert
      case None => false
      case Some(c) =>
        if c.ca.blob !in idx.certs then false
        else if HasBlob(t.ids, c.keyId) then true
        else if c.legacy || c.serial == 0 then false
        else Find(t.serials, Range(c.serial, c.serial)).Some?
  }

  /** ssh_krl_check_key; the trees `caTrees` are those searched for the CA key itself. */
  predicate CheckKey(idx: Index, key: Key, t: Trees, caTrees: Trees)
  {
    IsKeyRevoked(idx, key, t) || (key.cert.Some? && IsKeyRevoked(idx, key.cert.value.ca, caTrees))
  }

  // ----- The index against the revocations that were made

  /** The operation revokes the key itself. */
  ghost predicate Revokes(op: Op, key: Key)
  {
    match op
    case BySha1(h) => h == key.sha1
    case Explicit(b) => b == key.blob
    case ByKeyId(ca, id) => key.cert.Some? && key.cert.value.ca.blob == ca && key.cert.value.keyId == id
    case BySerialRange(ca, lo, hi) =>
      && key.cert.Some? && key.cert.value.ca.blob == ca && !key.cert.value.legacy
      && 0 < lo <= key.cert.value.serial <= hi
  }

  ghost predicate SomeRevokes(ops: seq<Op>, key: Key)
  {
    exists i | 0 <= i < |ops| :: Revokes(ops[i], key)
  }

  /** What a state of the index says about a key. */
  ghost predicate Denotes(idx: Index, key: Key)
  {
    || key.sha1 in idx.sha1s
    || key.blob in idx.keys
    || (key.cert.Some? && var c := key.cert.value; var rc := Lookup(idx.certs, c.ca.blob);
        c.keyId in rc.keyIds || (!c.legacy && c.serial != 0 && Covers(rc.serials, c.serial)))
  }

  ghost predicate Canonicals(certs: Certs) { forall ca | ca in certs :: Canonical(certs[ca].serials) }

  lemma SomeRevokesSnoc(ops: seq<Op>, key: Key)
    requires ops != []
    ensures SomeRevokes(ops, key) <==> SomeRevokes(ops[..|ops| - 1], key) || Revokes(ops[|ops| - 1], key)
  {
    var init := ops[..|ops| - 1];
    if SomeRevokes(init, key) {
      var i :| 0 <= i < |init| && Revokes(init[i], key);
      assert Revokes(ops[i], key);
    }
    if SomeRevokes(ops, key) {
      var i :| 0 <= i < |ops| && Revokes(ops[i], key);
      assert i < |init| ==> Revokes(init[i], key);
    }
  }

  lemma ApplyDenotes(idx: Index, op: Op, key: Key)
    requires Canonicals(idx.certs)
    ensures Canonicals(Apply(idx, op).certs)
    ensures Denotes(Apply(idx, op), key) <==> Denotes(idx, key) || Revokes(op, key)
  {
    match op {
      case BySerialRange(ca, lo, hi) =>
        if 0 < lo <= hi {
          InsertRangeSpec(Lookup(idx.certs, ca).serials, lo, hi);
        }
      case ByKeyId(ca, id) =>
      case Explicit(b) =>
      case BySha1(h) =>
    }
  }

  lemma {:induction false} RunDenotes(ops: seq<Op>, key: Key)
    ensures Canonicals(Run(ops).certs)
    ensures Denotes(Run(ops), key) <==> SomeRevokes(ops, key)
  {
    if ops != [] {
      RunDenotes(ops[..|ops| - 1], key);
      SomeRevokesSnoc(ops, key);
      ApplyDenotes(Run(ops[..|ops| - 1]), ops[|ops| - 1], key);
    }
  }

  /** Under every CA something is revoked, and serial 0 never is. */
  lemma {:induction false} RunStored(ops: seq<Op>, ca: Bytes)
    requires ca in Run(ops).certs
    ensures var rc := Run(ops).certs[ca]; Stored(rc.serials) && rc != NOTHING
  {
    if ops != [] {
      var before, op := Run(ops[..|ops| - 1]), ops[|ops| - 1];
      if ca in before.certs { RunStored(ops[..|ops| - 1], ca); }
      ApplyStored(before, op, ca);
    }
  }

  lemma ApplyStored(idx: Index, op: Op, ca: Bytes)
    requires ca in Apply(idx, op).certs
    requires ca in idx.certs ==> Stored(idx.certs[ca].serials) && idx.certs[ca] != NOTHING
    ensures var rc := Apply(idx, op).certs[ca]; Stored(rc.serials) && rc != NOTHING
  {
    if op.BySerialRange? && op.ca == ca && 0 < op.lo <= op.hi {
      InsertStored(Lookup(idx.certs, ca).serials, op.lo, op.hi);
    }
  }

  lemma {:induction false} InsertStored(s: seq<Range>, lo: U64, hi: U64)
    requires Stored(s) && 0 < lo <= hi
    ensures Stored(InsertRange(s, lo, hi)) && InsertRange(s, lo, hi) != []
  {
    InsertRangeSpec(s, lo, hi);
    var r := InsertRange(s, lo, hi);
    assert Covers(r, lo);
    forall i | 0 <= i < |r| ensures r[i].lo > 0 {
      assert In(r[i].lo, r[i]);
      assert Covers(r, r[i].lo);
    }
  }

  lemma SearchDenotes(idx: Index, key: Key, t: Trees)
    requires Canonicals(idx.certs) && Holds(idx, key, t)
    ensures IsKeyRevoked(idx, key, t) <==> Denotes(idx, key)
  {
    HasBlobFindsMember(t.sha1s, key.sha1);
    HasBlobFindsMember(t.keys, key.blob);
    if key.cert.Some? && key.cert.value.ca.blob in idx.certs {
      var c := key.cert.value;
      HasBlobFindsMember(t.ids, c.keyId);
      FindFindsOverlap(t.serials, Range(c.serial, c.serial));
      var s := InOrder(t.serials);
      assert forall i | 0 <= i < |s| :: In(c.serial, s[i]) <==> Overlap(Range(c.serial, c.serial), s[i]);
    }
  }

  /** The trees after an operation, before any rebalancing: blobs and key IDs go in by RB_INSERT,
      the trees of a new CA start empty, and `serials` is the new tree of serials. */
  function Inserted(t: Trees, idx: Index, op: Op, key: Key, serials: Shape): Trees
  {
    match op
    case Explicit(b) => t.(keys := InsertBlob(t.keys, b))
    case BySha1(h) => t.(sha1s := InsertBlob(t.sha1s, h))
    case ByKeyId(ca, id) =>
      if !Under(key, ca) then t
      else if ca in idx.certs then t.(ids := InsertBlob(t.ids, id))
      else t.(ids := InsertBlob(Empty, id), serials := Leaf)
    case BySerialRange(ca, lo, hi) =>
      if !Under(key, ca) || RevokeSerials(Lookup(idx.certs, ca), lo, hi).Err? then t
      else if ca in idx.certs then t.(serials := serials)
      else t.(ids := Empty, serials := serials)
  }

  /** The key is a certificate of this CA. */
  predicate Under(key: Key, ca: Bytes) { key.cert.Some? && key.cert.value.ca.blob == ca }

  /** Every revocation leaves trees that hold the new index. */
  lemma {:induction false} ApplyHolds(idx: Index, op: Op, key: Key, t: Trees, serials: Shape)
    requires Holds(idx, key, t)
    requires op.BySerialRange? && Under(key, op.ca) && 0 < op.lo <= op.hi ==>
               InOrder(serials) == InsertRange(Lookup(idx.certs, op.ca).serials, op.lo, op.hi)
    ensures Holds(Apply(idx, op), key, Inserted(t, idx, op, key, serials))
  {
    hide Ordered;
    hide InsertBlob;
    match op {
      case Explicit(b) => InsertBlobKeepsOrder(t.keys, b);
      case BySha1(h) => InsertBlobKeepsOrder(t.sha1s, h);
      case ByKeyId(ca, id) =>
        NothingOrdered();
        if Under(key, ca) {
          if ca in idx.certs { InsertBlobKeepsOrder(t.ids, id); } else { InsertBlobKeepsOrder(Empty, id); }
        }
      case BySerialRange(ca, lo, hi) => NothingOrdered();
    }
  }

  lemma NothingOrdered()
    ensures Ordered(Empty) && Members(Empty) == {} && InOrder(Leaf) == []
  {
  }

  /** After any revocations, and in trees of any shape, a key is reported revoked exactly
      when one of them revokes it or the CA key of its certificate. */
  lemma {:induction false} CheckKeyCorrect(ops: seq<Op>, key: Key, t: Trees, caTrees: Trees)
    requires Holds(Run(ops), key, t)
    requires key.cert.Some? ==> Holds(Run(ops), key.cert.value.ca, caTrees)
    ensures CheckKey(Run(ops), key, t, caTrees)
            <==> SomeRevokes(ops, key) || (key.cert.Some? && SomeRevokes(ops, key.cert.value.ca))
  {
    RunDenotes(ops, key);
    SearchDenotes(Run(ops), key, t);
    if key.cert.Some? {
      RunDenotes(ops, key.cert.value.ca);
      SearchDenotes(Run(ops), key.cert.value.ca, caTrees);
    }
  }

  /** A revoked key is reported, whatever else was revoked before or after. */
  lemma {:induction false} RevokeKeyIsReported(before: seq<Op>, key: Key, after: seq<Op>, t: Trees, caTrees: Trees)
    requires Holds(Run(before + [RevokeKey(key)] + after), key, t)
    requires key.cert.Some? ==> Holds(Run(before + [RevokeKey(key)] + after), key.cert.value.ca, caTrees)
    ensures CheckKey(Run(before + [RevokeKey(key)] + after), key, t, caTrees)
  {
    var ops := before + [RevokeKey(key)] + after;
    assert Revokes(ops[|before|], key);
    CheckKeyCorrect(ops, key, t, caTrees);
  }
}
