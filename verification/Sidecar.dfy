/** The sb-attest sidecar: its own validation, canonicaliser and payload, written independently of
    the gateway's, and their agreement. */
module Sidecar {
  import opened Bytes
  import opened Unicode
  import opened Json
  import opened Evidence

  const ATTEST_SCHEMA := "dev.nautgate.audit-checkpoint/v1"
  const ATTEST_DOMAIN := Ascii("NAUTGATE-AUDIT-CHECKPOINT-V1\0")
  const ATTEST_ALGORITHM := "sha256-binary-v1"
  const ATTEST_MAX_INTEGER := 0x20_0000_0000_0000 - 1

  // ----- the canonicaliser -----

  // _validate_json, in its order of tests
  predicate Accepts(v: Value)
    decreases v
  {
    if v.Null? || v.Str? || v.Bool? then true
    else if v.Int? then -ATTEST_MAX_INTEGER <= v.n <= ATTEST_MAX_INTEGER
    else if v.Float? then false
    else if v.Obj? then forall k :: k in v.members ==> Accepts(v.members[k])
    else if v.Arr? then forall i :: 0 <= i < |v.items| ==> Accepts(v.items[i])
    else false
  }

  // ",".join(parts)
  function Join(parts: seq<string>): string {
    if parts == [] then "" else if |parts| == 1 then parts[0] else Join(parts[..|parts| - 1]) + "," + parts[|parts| - 1]
  }

  function ItemTexts(v: Value): (r: seq<string>)
    requires Accepts(v) && v.Arr?
    ensures |r| == |v.items|
    decreases v, 0
  {
    seq(|v.items|, i requires 0 <= i < |v.items| => Text(v.items[i]))
  }

  function MemberTexts(v: Value, keys: seq<string>): (r: seq<string>)
    requires Accepts(v) && v.Obj? && forall k :: k in keys ==> k in v.members
    ensures |r| == |keys|
    decreases v, 0
  {
    seq(|keys|, i requires 0 <= i < |keys| => Quote(keys[i]) + ":" + Text(v.members[keys[i]]))
  }

  // _canonical
  function Text(v: Value): string
    requires Accepts(v)
    decreases v, 1
  {
    if v.Null? then "null"
    else if v.Bool? then (if v.b then "true" else "false")
    else if v.Str? then Quote(v.s)
    else if v.Int? then IntText(v.n)
    else if v.Obj? then "{" + Join(MemberTexts(v, SortedKeys(v.members.Keys))) + "}"
    else "[" + Join(ItemTexts(v)) + "]"
  }

  function AttestJson(v: Value): Option<seq<Byte>> {
    if Accepts(v) then Some(Utf8(Text(v))) else None
  }

  // ----- agreement with the gateway's canonicaliser -----

  lemma {:induction false} JoinFromLeft(parts: seq<string>)
    requires |parts| >= 2
    ensures Join(parts) == parts[0] + "," + Join(parts[1..])
  {
    var n := |parts| - 1;
    if n > 1 {
      JoinFromLeft(parts[..n]);
      assert parts[..n][1..] == parts[1..][..n - 1];
    } else {
      assert parts[..1] == [parts[0]] && parts[1..] == [parts[1]];
    }
  }

  lemma {:induction false} AcceptsAgrees(v: Value)
    ensures Accepts(v) <==> Valid(v)
    decreases v
  {
    if v.Obj? {
      forall k | k in v.members ensures Accepts(v.members[k]) <==> Valid(v.members[k]) {
        AcceptsAgrees(v.members[k]);
      }
    } else if v.Arr? {
      forall i | 0 <= i < |v.items| ensures Accepts(v.items[i]) <==> Valid(v.items[i]) {
        AcceptsAgrees(v.items[i]);
      }
    }
  }

  lemma {:induction false} ItemsAgree(v: Value, i: nat)
    requires Valid(v) && Accepts(v) && v.Arr? && i <= |v.items|
    ensures Join(ItemTexts(v)[i..]) == Items(v, i)
    decreases v, 0, |v.items| - i
  {
    var rest := ItemTexts(v)[i..];
    if i < |v.items| {
      TextAgrees(v.items[i]);
      assert rest[0] == Text(v.items[i]);
      if i < |v.items| - 1 {
        JoinFromLeft(rest);
        assert rest[1..] == ItemTexts(v)[i + 1..];
        ItemsAgree(v, i + 1);
      }
    }
  }

  lemma {:induction false} MembersAgree(v: Value, keys: seq<string>)
    requires Valid(v) && Accepts(v) && v.Obj? && forall k :: k in keys ==> k in v.members
    ensures Join(MemberTexts(v, keys)) == Members(v, keys)
    decreases v, 0, |keys|
  {
    if keys != [] {
      var texts := MemberTexts(v, keys);
      TextAgrees(v.members[keys[0]]);
      assert texts[0] == Quote(keys[0]) + ":" + Canonical(v.members[keys[0]]);
      if |keys| > 1 {
        JoinFromLeft(texts);
        assert texts[1..] == MemberTexts(v, keys[1..]);
        MembersAgree(v, keys[1..]);
      }
    }
  }

  lemma {:induction false} TextAgrees(v: Value)
    requires Valid(v)
    ensures Accepts(v) && Text(v) == Canonical(v)
    decreases v, 1
  {
    AcceptsAgrees(v);
    match v
    case Arr(items) =>
      ItemsAgree(v, 0);
      assert ItemTexts(v)[0..] == ItemTexts(v);
    case Obj(m) =>
      MembersAgree(v, SortedKeys(m.Keys));
    case _ =>
  }

  /** The two canonicalisers accept the same values and give them the same bytes. */
  lemma CanonicalisersAgree(v: Value)
    ensures AttestJson(v) == CanonicalJson(v)
  {
    AcceptsAgrees(v);
    if Valid(v) {
      TextAgrees(v);
    }
  }

  // ----- the payload -----

  const FIELDS := {
    "schema", "checkpoint_id", "instance_id", "first_sequence", "last_sequence", "receipt_count",
    "merkle_algorithm", "merkle_root", "opened_at", "closed_at", "previous_checkpoint_sha256", "signing_key_id"
  }

  // value == value.lower() for a string bytes.fromhex accepts
  predicate NoUpperHex(s: string) {
    forall i :: 0 <= i < |s| ==> !('A' <= s[i] <= 'F')
  }

  predicate IsSha256Hex(v: Value) {
    v.Str? && FromHex(v.s).Some? && |FromHex(v.s).value| == 32 && NoUpperHex(v.s)
  }

  predicate RangeAccepted(first: Value, last: Value, count: Value) {
    first.Int? && last.Int? && count.Int? && 1 <= first.n <= last.n && count.n == last.n - first.n + 1
  }

  // The checks that come before canonicalisation.
  predicate Admits(checkpoint: Object, expectedKey: string) {
    && checkpoint.Keys == FIELDS
    && checkpoint["schema"] == Str(ATTEST_SCHEMA)
    && checkpoint["merkle_algorithm"] == Str(ATTEST_ALGORITHM)
    && checkpoint["signing_key_id"] == Str(expectedKey)
    && RangeAccepted(checkpoint["first_sequence"], checkpoint["last_sequence"], checkpoint["receipt_count"])
    && IsSha256Hex(checkpoint["merkle_root"])
    && (checkpoint["previous_checkpoint_sha256"] == Null || IsSha256Hex(checkpoint["previous_checkpoint_sha256"]))
  }

  // checkpoint_payload; None is CheckpointError.
  function AttestPayload(checkpoint: Object, expectedKey: string): Option<seq<Byte>> {
    if !Admits(checkpoint, expectedKey) then None
    else
      match AttestJson(Obj(checkpoint))
      case None => None
      case Some(text) => Some(ATTEST_DOMAIN + text)
  }

  /** A checkpoint the sidecar admits it turns into byte for byte the payload the gateway computes, or
      refuses exactly when the gateway does. */
  lemma AttestAgreesWithGateway(checkpoint: Object, key: string)
    requires Admits(checkpoint, key)
    ensures AttestPayload(checkpoint, key) == CheckpointPayload(checkpoint)
  {
    hide AttestJson, CanonicalJson, Valid, IsSha256Hex, RangeAccepted;
    CanonicalisersAgree(Obj(checkpoint));
    PayloadByJson(checkpoint);
  }

  lemma PayloadByJson(checkpoint: Object)
    ensures CanonicalJson(Obj(checkpoint)).None? ==> CheckpointPayload(checkpoint).None?
    ensures CanonicalJson(Obj(checkpoint)).Some? && Get(checkpoint, "schema") == Some(Str(CHECKPOINT_SCHEMA)) ==>
      CheckpointPayload(checkpoint) == Some(CHECKPOINT_DOMAIN + CanonicalJson(Obj(checkpoint)).value)
  {
    hide Canonical;
  }
}
