/** The tamper-evident audit chain of one tenant (app.py: audit_integrity_key, audit_payload,
    calculate_audit_hash, verify_audit_chain, rotate_audit_integrity_key, audit).

    The two hash functions are parameters. Stored secrets are kept decrypted. */
module AuditChain {
  import opened Outcomes

  type KeyId = string
  type Secret = string
  type Hash = string

  const ENVIRONMENT_KEY: KeyId := "environment-v1"

  datatype Version = LegacySha256V1 | HmacV1 | HmacV2 | HmacV3

  datatype Content = Content(
    action: string, createdAt: int, details: Option<string>, eventId: string, requestId: string,
    sourceIp: Option<string>, target: string, tenant: nat, userAgent: Option<string>, user: Option<nat>)

  datatype Row = Row(
    content: Content, context: Option<string>, version: Version, keyId: KeyId, previousHash: Hash, eventHash: Hash)

  /** What is hashed. Absent text counts as empty; the key id is hashed from v2 on, the context from v3 on. */
  datatype Payload = Payload(
    action: string, createdAt: int, details: string, eventId: string, requestId: string, sourceIp: string,
    target: string, tenant: nat, userAgent: string, user: Option<nat>, previousHash: Hash,
    keyId: Option<KeyId>, context: Option<string>)

  function Or(text: Option<string>, default: string): string {
    if text.Some? && text.value != "" then text.value else default
  }

  function PayloadOf(r: Row): Payload {
    var c := r.content;
    Payload(c.action, c.createdAt, Or(c.details, ""), c.eventId, c.requestId, Or(c.sourceIp, ""), c.target, c.tenant,
      Or(c.userAgent, ""), c.user, r.previousHash,
      if r.version.HmacV2? || r.version.HmacV3? then Some(r.keyId) else None,
      if r.version.HmacV3? then Some(Or(r.context, "{}")) else None)
  }

  datatype Hashing = Hashing(sha: Payload -> Hash, hmac: (Secret, Payload) -> Hash)

  /** `stored` are the key rows; `active` the one that signs; `environment` the configured secret. */
  datatype Keys = Keys(stored: map<KeyId, Secret>, active: Option<KeyId>, environment: Secret)

  function SecretFor(keys: Keys, id: KeyId): Option<Secret> {
    if id in keys.stored then Some(keys.stored[id])
    else if id == ENVIRONMENT_KEY then Some(keys.environment)
    else None
  }

  function Digest(h: Hashing, keys: Keys, r: Row): Option<Hash> {
    if r.version.LegacySha256V1? then Some(h.sha(PayloadOf(r)))
    else
      match SecretFor(keys, r.keyId)
      case None => None
      case Some(secret) => Some(h.hmac(secret, PayloadOf(r)))
  }

  /** The hash that ends the first `n` rows. */
  function HashAt(rows: seq<Row>, n: nat): Hash
    requires n <= |rows|
  {
    if n == 0 then "" else rows[n - 1].eventHash
  }

  function Head(rows: seq<Row>): Hash { HashAt(rows, |rows|) }

  predicate RowHolds(h: Hashing, keys: Keys, r: Row, previous: Hash) {
    r.previousHash == previous && Digest(h, keys, r) == Some(r.eventHash)
  }

  predicate HoldsAt(h: Hashing, keys: Keys, rows: seq<Row>, i: nat)
    requires i < |rows|
  {
    RowHolds(h, keys, rows[i], HashAt(rows, i))
  }

  /** The first `n` rows verify. */
  predicate AcceptedTo(h: Hashing, keys: Keys, rows: seq<Row>, n: nat)
    requires n <= |rows|
  {
    forall i :: 0 <= i < n ==> HoldsAt(h, keys, rows, i)
  }

  predicate Accepted(h: Hashing, keys: Keys, rows: seq<Row>) { AcceptedTo(h, keys, rows, |rows|) }

  datatype Reason = Sound | PreviousHashMismatch | KeyUnavailable | EventHashMismatch

  datatype Report = Report(checked: nat, head: Hash, reason: Reason)

  // ---------------------------------------------------------------- the trail as the source updates it

  function SigningKey(keys: Keys): KeyId {
    if keys.active.Some? then keys.active.value else ENVIRONMENT_KEY
  }

  function SignedRow(h: Hashing, keys: Keys, content: Content, context: Option<string>, previous: Hash): Option<Row> {
    var row := Row(content, context, HmacV3, SigningKey(keys), previous, "");
    match Digest(h, keys, row)
    case None => None
    case Some(hash) => Some(row.(eventHash := hash))
  }

  function NewKeyId(token: string): KeyId { "audit-" + token }

  function RotatedKeys(keys: Keys, token: string, secret: Secret): Keys {
    var pinned :=
      if ENVIRONMENT_KEY in keys.stored then keys.stored
      else keys.stored[ENVIRONMENT_KEY := keys.environment];
    keys.(stored := pinned[NewKeyId(token) := secret], active := Some(NewKeyId(token)))
  }

  method CheckRow(h: Hashing, keys: Keys, row: Row, previous: Hash) returns (reason: Reason)
    ensures reason.Sound? <==> RowHolds(h, keys, row, previous)
    ensures reason.PreviousHashMismatch? <==> row.previousHash != previous
    ensures reason.KeyUnavailable? <==> row.previousHash == previous && Digest(h, keys, row).None?
  {
    if row.previousHash != previous {
      return PreviousHashMismatch;
    }
    var digest := Digest(h, keys, row);
    if digest.None? {
      return KeyUnavailable;
    }
    return if row.eventHash == digest.value then Sound else EventHashMismatch;
  }

  class AuditTrail {
    const h: Hashing
    var rows: seq<Row>
    var keys: Keys

    ghost predicate Valid()
      reads this
    {
      Accepted(h, keys, rows) && KeysOk(keys)
    }

    constructor (h: Hashing, environment: Secret)
      ensures Valid() && rows == [] && this.h == h && keys == Keys(map[], None, environment)
    {
      this.h := h;
      rows, keys := [], Keys(map[], None, environment);
    }

    /** `verify_audit_chain`: walks the rows and stops at the first that does not hold. */
    method Verify() returns (r: Report)
      ensures r.reason.Sound? <==> Accepted(h, keys, rows)
      ensures r.reason.Sound? ==> r.checked == |rows| && r.head == Head(rows)
      ensures !r.reason.Sound? ==>
        && 1 <= r.checked <= |rows|
        && AcceptedTo(h, keys, rows, r.checked - 1)
        && !HoldsAt(h, keys, rows, r.checked - 1)
    {
      var previous := "";
      for i := 0 to |rows|
        invariant previous == HashAt(rows, i)
        invariant AcceptedTo(h, keys, rows, i)
      {
        var reason := CheckRow(h, keys, rows[i], previous);
        assert reason.Sound? <==> HoldsAt(h, keys, rows, i);
        if !reason.Sound? {
          return Report(i + 1, previous, reason);
        }
        previous := rows[i].eventHash;
      }
      return Report(|rows|, previous, Sound);
    }

    /** `audit`: signs a new row onto the chain. */
    method Audit(content: Content, context: Option<string>) returns (r: Result<()>)
      modifies this`rows
      ensures r.Ok? <==> SignedRow(h, keys, content, context, Head(old(rows))).Some?
      ensures r.Ok? ==> rows == old(rows) + [SignedRow(h, keys, content, context, Head(old(rows))).value]
      ensures r.Err? ==> rows == old(rows)
      ensures KeysOk(keys) ==> r.Ok?
      ensures old(Accepted(h, keys, rows)) ==> Accepted(h, keys, rows)
    {
      var row := SignedRow(h, keys, content, context, Head(rows));
      if row.None? {
        return Err(BadIntegrity);
      }
      if Accepted(h, keys, rows) {
        AppendAccepted(h, keys, rows, content, context);
      }
      rows := rows + [row.value];
      return Ok(());
    }

    /** `rotate_audit_integrity_key`: only on a sound chain; the environment secret is pinned first. */
    method Rotate(token: string, secret: Secret, content: Content, context: Option<string>) returns (r: Result<()>)
      requires KeysOk(keys)
      modifies this
      ensures r.Ok? <==> old(Accepted(h, keys, rows)) && NewKeyId(token) !in old(keys).stored
      ensures r.Err? ==> rows == old(rows) && keys == old(keys)
      ensures r.Ok? ==> Valid() && keys == RotatedKeys(old(keys), token, secret) && ENVIRONMENT_KEY in keys.stored
      ensures r.Ok? ==> |rows| == |old(rows)| + 1 && old(rows) <= rows
    {
      var integrity := Verify();
      if !integrity.reason.Sound? {
        return Err(BadIntegrity);
      }
      if NewKeyId(token) in keys.stored {
        return Err(Conflict);
      }
      RotationKeepsAccepted(h, keys, rows, token, secret);
      keys := RotatedKeys(keys, token, secret);
      r := Audit(content, context);
    }
  }

  // ---------------------------------------------------------------- chains stay accepted

  predicate KeysOk(keys: Keys) {
    keys.active.Some? ==> keys.active.value in keys.stored
  }

  lemma AppendAccepted(h: Hashing, keys: Keys, rows: seq<Row>, content: Content, context: Option<string>)
    requires Accepted(h, keys, rows) && SignedRow(h, keys, content, context, Head(rows)).Some?
    ensures Accepted(h, keys, rows + [SignedRow(h, keys, content, context, Head(rows)).value])
  {
    var row := SignedRow(h, keys, content, context, Head(rows)).value;
    assert PayloadOf(row) == PayloadOf(row.(eventHash := ""));
    var all := rows + [row];
    forall i | 0 <= i < |all| ensures HoldsAt(h, keys, all, i) {
      assert HashAt(all, i) == HashAt(rows, i);
      if i < |rows| { assert HoldsAt(h, keys, rows, i); }
    }
  }

  /** What an audit signs: a v3 row with what is reported, linked to the head, under the active key or, before any
      rotation, under the environment's. It fails only without the secret of that key. */
  lemma AuditSigns(h: Hashing, keys: Keys, content: Content, context: Option<string>, previous: Hash)
    ensures var id := if keys.active.Some? then keys.active.value else "environment-v1";
      var r := SignedRow(h, keys, content, context, previous);
      && (r.None? <==> id !in keys.stored && id != "environment-v1")
      && (r.Some? ==> var row := r.value;
            && row.content == content && row.context == context && row.version == HmacV3
            && row.keyId == id && row.previousHash == previous
            && row.eventHash == h.hmac(if id in keys.stored then keys.stored[id] else keys.environment, PayloadOf(row)))
  {
    var row := Row(content, context, HmacV3, SigningKey(keys), previous, "");
    forall hash: Hash ensures PayloadOf(row.(eventHash := hash)) == PayloadOf(row) {
    }
  }

  /** What a rotation leaves: every old secret, the environment's pinned unless it was, and the new key active. */
  lemma RotationExactly(keys: Keys, token: string, secret: Secret)
    ensures var after, id := RotatedKeys(keys, token, secret), "audit-" + token;
      && after.active == Some(id) && after.environment == keys.environment
      && after.stored.Keys == keys.stored.Keys + {"environment-v1", id} && after.stored[id] == secret
      && (forall k :: k in keys.stored && k != id ==> after.stored[k] == keys.stored[k])
      && ("environment-v1" !in keys.stored ==> after.stored["environment-v1"] == keys.environment)
  {
    var id := "audit-" + token;
    assert id[0] == 'a' && "environment-v1"[0] == 'e';
  }

  lemma RotationKeepsAccepted(h: Hashing, keys: Keys, rows: seq<Row>, token: string, secret: Secret)
    requires Accepted(h, keys, rows) && NewKeyId(token) !in keys.stored
    ensures Accepted(h, RotatedKeys(keys, token, secret), rows) && KeysOk(RotatedKeys(keys, token, secret))
  {
    var after := RotatedKeys(keys, token, secret);
    assert NewKeyId(token)[0] == 'a' && ENVIRONMENT_KEY[0] == 'e';
    forall i | 0 <= i < |rows| ensures HoldsAt(h, after, rows, i) {
      assert HoldsAt(h, keys, rows, i);
      assert SecretFor(keys, rows[i].keyId).Some? ==> SecretFor(after, rows[i].keyId) == SecretFor(keys, rows[i].keyId);
    }
  }

  datatype Op =
    | AuditOp(content: Content, context: Option<string>)
    | RotateOp(token: string, secret: Secret, content: Content, context: Option<string>)

  datatype Trail = Trail(keys: Keys, rows: seq<Row>)

  function Apply(h: Hashing, t: Trail, op: Op): Trail {
    match op
    case AuditOp(content, context) =>
      (var row := SignedRow(h, t.keys, content, context, Head(t.rows));
       if row.Some? then t.(rows := t.rows + [row.value]) else t)
    case RotateOp(token, secret, content, context) =>
      if !Accepted(h, t.keys, t.rows) || NewKeyId(token) in t.keys.stored then t
      else
        var keys := RotatedKeys(t.keys, token, secret);
        var row := SignedRow(h, keys, content, context, Head(t.rows));
        if row.Some? then Trail(keys, t.rows + [row.value]) else t
  }

  function Run(h: Hashing, t: Trail, ops: seq<Op>): Trail
    decreases ops
  {
    if ops == [] then t else Run(h, Apply(h, t, ops[0]), ops[1..])
  }

  lemma ApplyKeepsAccepted(h: Hashing, t: Trail, op: Op)
    requires Accepted(h, t.keys, t.rows) && KeysOk(t.keys)
    ensures Accepted(h, Apply(h, t, op).keys, Apply(h, t, op).rows) && KeysOk(Apply(h, t, op).keys)
    ensures |Apply(h, t, op).rows| == |t.rows| + 1 || (op.RotateOp? && NewKeyId(op.token) in t.keys.stored)
  {
    match op
    case AuditOp(content, context) => AppendAccepted(h, t.keys, t.rows, content, context);
    case RotateOp(token, secret, content, context) =>
      if NewKeyId(token) !in t.keys.stored {
        RotationKeepsAccepted(h, t.keys, t.rows, token, secret);
        AppendAccepted(h, RotatedKeys(t.keys, token, secret), t.rows, content, context);
      }
  }

  /** Every run of `audit` and key rotations leaves a chain that verifies, although its rows are signed
      by different keys. */
  lemma {:induction false} EveryRunIsAccepted(h: Hashing, t: Trail, ops: seq<Op>)
    requires Accepted(h, t.keys, t.rows) && KeysOk(t.keys)
    ensures Accepted(h, Run(h, t, ops).keys, Run(h, t, ops).rows) && KeysOk(Run(h, t, ops).keys)
    decreases ops
  {
    if ops != [] {
      ApplyKeepsAccepted(h, t, ops[0]);
      EveryRunIsAccepted(h, Apply(h, t, ops[0]), ops[1..]);
    }
  }

  predicate EnvironmentSigned(r: Row) { !r.version.LegacySha256V1? && r.keyId == ENVIRONMENT_KEY }

  /** Changing the configured secret leaves an accepted chain accepted exactly when it does not really
      change, a rotation has pinned the old one, or no row was signed with it. */
  lemma SecretChangeExactly(h: Hashing, keys: Keys, rows: seq<Row>, secret: Secret)
    requires Accepted(h, keys, rows)
    requires forall a, b, p :: h.hmac(a, p) == h.hmac(b, p) ==> a == b
    ensures Accepted(h, keys.(environment := secret), rows) <==>
      || secret == keys.environment
      || ENVIRONMENT_KEY in keys.stored
      || forall i :: 0 <= i < |rows| ==> !EnvironmentSigned(rows[i])
  {
    var after := keys.(environment := secret);
    forall i | 0 <= i < |rows|
      ensures HoldsAt(h, after, rows, i) <==>
        secret == keys.environment || ENVIRONMENT_KEY in keys.stored || !EnvironmentSigned(rows[i])
    {
      assert HoldsAt(h, keys, rows, i);
    }
  }

  // ---------------------------------------------------------------- tampering shows

  /** No two payloads share a digest, whichever hash and secret produced it, and no digest is empty. */
  ghost predicate CollisionFree(h: Hashing) {
    && (forall p, q :: h.sha(p) == h.sha(q) ==> p == q)
    && (forall a, b, p, q :: h.hmac(a, p) == h.hmac(b, q) ==> p == q)
    && (forall a, p, q :: h.hmac(a, p) == h.sha(q) ==> p == q)
    && (forall p :: h.sha(p) != "")
    && (forall a, p :: h.hmac(a, p) != "")
  }

  lemma SameDigestSamePayload(h: Hashing, keys: Keys, keys': Keys, r: Row, s: Row)
    requires CollisionFree(h) && Digest(h, keys, r).Some? && Digest(h, keys, r) == Digest(h, keys', s)
    ensures PayloadOf(r) == PayloadOf(s) && Digest(h, keys, r) != Some("")
  {
  }

  predicate LinkedAt(rows: seq<Row>, i: nat)
    requires i < |rows|
  {
    rows[i].previousHash == HashAt(rows, i) && rows[i].eventHash != ""
  }

  /** Each of the first `n` rows names the hash before it and has a hash of its own. */
  predicate Linked(rows: seq<Row>, n: nat)
    requires n <= |rows|
  {
    forall i :: 0 <= i < n ==> LinkedAt(rows, i)
  }

  predicate HashesTell(rows: seq<Row>, rows': seq<Row>) {
    forall i, j :: 0 <= i < |rows| && 0 <= j < |rows'| && rows[i].eventHash == rows'[j].eventHash ==>
      PayloadOf(rows[i]) == PayloadOf(rows'[j])
  }

  lemma AcceptedIsLinked(h: Hashing, keys: Keys, rows: seq<Row>)
    requires CollisionFree(h) && Accepted(h, keys, rows)
    ensures Linked(rows, |rows|)
  {
    forall i | 0 <= i < |rows| ensures LinkedAt(rows, i) {
      assert HoldsAt(h, keys, rows, i);
      SameDigestSamePayload(h, keys, keys, rows[i], rows[i]);
    }
  }

  lemma AcceptedHashesTell(h: Hashing, keys: Keys, keys': Keys, rows: seq<Row>, rows': seq<Row>)
    requires CollisionFree(h) && Accepted(h, keys, rows) && Accepted(h, keys', rows')
    ensures HashesTell(rows, rows')
  {
    forall i, j | 0 <= i < |rows| && 0 <= j < |rows'| && rows[i].eventHash == rows'[j].eventHash
      ensures PayloadOf(rows[i]) == PayloadOf(rows'[j])
    {
      assert HoldsAt(h, keys, rows, i) && HoldsAt(h, keys', rows', j);
      SameDigestSamePayload(h, keys, keys', rows[i], rows'[j]);
    }
  }

  lemma {:induction false} HashDeterminesPrefix(rows: seq<Row>, n: nat, rows': seq<Row>, m: nat)
    requires n <= |rows| && m <= |rows'| && Linked(rows, n) && Linked(rows', m) && HashesTell(rows, rows')
    requires HashAt(rows, n) == HashAt(rows', m)
    ensures n == m && forall i :: 0 <= i < n ==> PayloadOf(rows[i]) == PayloadOf(rows'[i])
    decreases n
  {
    assert n > 0 ==> LinkedAt(rows, n - 1);
    assert m > 0 ==> LinkedAt(rows', m - 1);
    if n > 0 && m > 0 {
      assert PayloadOf(rows[n - 1]).previousHash == PayloadOf(rows'[m - 1]).previousHash;
      HashDeterminesPrefix(rows, n - 1, rows', m - 1);
    }
  }

  /** The head of an accepted chain determines the whole chain: two accepted chains with the same head
      have the same length and agree in every hashed field of every row, whatever keys verify them. */
  lemma HeadDeterminesChain(h: Hashing, keys: Keys, keys': Keys, rows: seq<Row>, rows': seq<Row>)
    requires CollisionFree(h) && Accepted(h, keys, rows) && Accepted(h, keys', rows') && Head(rows) == Head(rows')
    ensures |rows| == |rows'| && forall i :: 0 <= i < |rows| ==> PayloadOf(rows[i]) == PayloadOf(rows'[i])
  {
    AcceptedIsLinked(h, keys, rows);
    AcceptedIsLinked(h, keys', rows');
    AcceptedHashesTell(h, keys, keys', rows, rows');
    HashDeterminesPrefix(rows, |rows|, rows', |rows'|);
  }

  /** The same text, absent text counting as `blank`. */
  predicate SameText(a: Option<string>, b: Option<string>, blank: string) {
    (if a == None || a == Some("") then blank else a.value) == (if b == None || b == Some("") then blank else b.value)
  }

  /** The fields that rows of every version protect. */
  predicate SameEntry(r: Row, t: Row) {
    var c, d := r.content, t.content;
    && c.action == d.action && c.createdAt == d.createdAt && c.eventId == d.eventId && c.requestId == d.requestId
    && c.target == d.target && c.tenant == d.tenant && c.user == d.user && r.previousHash == t.previousHash
    && SameText(c.details, d.details, "") && SameText(c.sourceIp, d.sourceIp, "")
    && SameText(c.userAgent, d.userAgent, "")
  }

  /** From v2 on the key id is protected as well, in v3 also the security context. */
  predicate SameProtected(r: Row, t: Row) {
    && SameEntry(r, t)
    && (r.version in {HmacV2, HmacV3} ==> t.version == r.version && r.keyId == t.keyId)
    && (r.version == HmacV3 ==> SameText(r.context, t.context, "{}"))
    && (r.version in {LegacySha256V1, HmacV1} ==> t.version in {LegacySha256V1, HmacV1})
  }

  lemma PayloadProtects(r: Row, t: Row)
    ensures PayloadOf(r) == PayloadOf(t) <==> SameProtected(r, t)
  {
  }

  /** The head of an accepted chain determines every protected field of every row: two accepted chains with the
      same head have the same length and differ in no action, time, details, event, request, address, target,
      tenant, user agent, user or link, nor from v2 on in a key id, nor in v3 in a security context. */
  lemma HeadDeterminesFields(h: Hashing, keys: Keys, keys': Keys, rows: seq<Row>, rows': seq<Row>)
    requires CollisionFree(h) && Accepted(h, keys, rows) && Accepted(h, keys', rows') && Head(rows) == Head(rows')
    ensures |rows| == |rows'| && forall i :: 0 <= i < |rows| ==> SameProtected(rows[i], rows'[i])
  {
    HeadDeterminesChain(h, keys, keys', rows, rows');
    forall i | 0 <= i < |rows| ensures SameProtected(rows[i], rows'[i]) {
      PayloadProtects(rows[i], rows'[i]);
    }
  }

  /** Altering a protected field of any row while keeping the head makes the chain fail verification, even
      for someone who can recompute every other hash. */
  lemma AlteredRowIsDetected(h: Hashing, keys: Keys, rows: seq<Row>, altered: seq<Row>, i: nat)
    requires CollisionFree(h) && Accepted(h, keys, rows) && |altered| == |rows| && i < |rows|
    requires !SameProtected(rows[i], altered[i]) && Head(altered) == Head(rows)
    ensures !Accepted(h, keys, altered)
  {
    if Accepted(h, keys, altered) {
      HeadDeterminesFields(h, keys, keys, rows, altered);
    }
  }

  /** What is not protected: a row with another security context is as good as before unless it is a v3 row, and a
      legacy row as good with any key id. */
  lemma UnprotectedFields(h: Hashing, keys: Keys, r: Row, previous: Hash, context: Option<string>, id: KeyId)
    ensures r.version != HmacV3 ==>
      (RowHolds(h, keys, r.(context := context), previous) <==> RowHolds(h, keys, r, previous))
    ensures r.version == LegacySha256V1 ==>
      (RowHolds(h, keys, r.(keyId := id), previous) <==> RowHolds(h, keys, r, previous))
  {
    PayloadProtects(r, r.(context := context));
    PayloadProtects(r, r.(keyId := id));
  }
}
