/** Domain-separated hashes of receipts, and the exact bytes the gateway has signed for a checkpoint. */
module Evidence {
  import opened Bytes
  import opened Json
  import JsonParser

  const RECEIPT_SCHEMA := "dev.nautgate.decision-receipt/v1"
  const CONTROL_RECEIPT_SCHEMA := "dev.nautgate.max-guard-control-receipt/v1"
  const CHECKPOINT_SCHEMA := "dev.nautgate.audit-checkpoint/v1"
  const MERKLE_ALGORITHM := "sha256-binary-v1"

  const SIGNATURE_ALGORITHM := "SHA256_WITH_RSA"
  const SIGNATURE_ENCODING := "base64-der"

  const RECEIPT_DOMAIN := Ascii("NAUTGATE-DECISION-RECEIPT-V1\0")
  const CONTROL_RECEIPT_DOMAIN := Ascii("NAUTGATE-MAX-GUARD-CONTROL-RECEIPT-V1\0")
  const CHECKPOINT_DOMAIN := Ascii("NAUTGATE-AUDIT-CHECKPOINT-V1\0")

  type Object = map<string, Value>

  // dict.get(key)
  function Get(o: Object, key: string): Option<Value> {
    if key in o then Some(o[key]) else None
  }

  predicate IsReceiptSchema(schema: Option<Value>) {
    schema == Some(Str(RECEIPT_SCHEMA)) || schema == Some(Str(CONTROL_RECEIPT_SCHEMA))
  }

  // The bytes hashed for a receipt; None when its schema or its content is refused.
  function ReceiptPreimage(receipt: Object): Option<seq<Byte>> {
    var schema := Get(receipt, "schema");
    if !IsReceiptSchema(schema) || !Valid(Obj(receipt)) then None
    else
      var domain := if schema == Some(Str(RECEIPT_SCHEMA)) then RECEIPT_DOMAIN else CONTROL_RECEIPT_DOMAIN;
      Some(domain + CanonicalJson(Obj(receipt)).value)
  }

  function ReceiptHash(h: HashFunction, receipt: Object): Option<Digest> {
    match ReceiptPreimage(receipt)
    case None => None
    case Some(p) => Some(h(p))
  }

  lemma DomainsDiffer(x: seq<Byte>, y: seq<Byte>)
    ensures RECEIPT_DOMAIN + x != CONTROL_RECEIPT_DOMAIN + y
  {
    assert (RECEIPT_DOMAIN + x)[9] == 'D' as int;
    assert (CONTROL_RECEIPT_DOMAIN + y)[9] == 'M' as int;
  }

  lemma SamePrefix(p: seq<Byte>, x: seq<Byte>, y: seq<Byte>)
    requires p + x == p + y
    ensures x == y
  {
    assert x == (p + x)[|p|..] == (p + y)[|p|..] == y;
  }

  // No two receipts, of either kind, are hashed from the same bytes.
  lemma ReceiptPreimageInjective(a: Object, b: Object)
    requires ReceiptPreimage(a).Some? && ReceiptPreimage(a) == ReceiptPreimage(b)
    ensures a == b
  {
    var x, y := CanonicalJson(Obj(a)).value, CanonicalJson(Obj(b)).value;
    hide ReceiptPreimage, CanonicalJson;
    assert x == y by {
      PreimageForms(a);
      PreimageForms(b);
      DomainsDiffer(x, y);
      DomainsDiffer(y, x);
      if ReceiptPreimage(a).value == RECEIPT_DOMAIN + x {
        SamePrefix(RECEIPT_DOMAIN, x, y);
      } else {
        SamePrefix(CONTROL_RECEIPT_DOMAIN, x, y);
      }
    }
    PreimageForms(a);
    PreimageForms(b);
    JsonParser.CanonicalInjective(Obj(a), Obj(b));
  }

  lemma PreimageForms(a: Object)
    requires ReceiptPreimage(a).Some?
    ensures Valid(Obj(a)) && CanonicalJson(Obj(a)).Some?
    ensures var x := CanonicalJson(Obj(a)).value;
      ReceiptPreimage(a).value == RECEIPT_DOMAIN + x || ReceiptPreimage(a).value == CONTROL_RECEIPT_DOMAIN + x
  {
  }

  // Different receipts with one hash exhibit a collision.
  function ReceiptCollision(h: HashFunction, a: Object, b: Object): (c: Collision)
    requires a != b
    requires ReceiptHash(h, a).Some? && ReceiptHash(h, a) == ReceiptHash(h, b)
    ensures Collides(h, c)
  {
    if ReceiptPreimage(a) == ReceiptPreimage(b) then
      ReceiptPreimageInjective(a, b);
      assert false;
      Collision([], [])
    else Collision(ReceiptPreimage(a).value, ReceiptPreimage(b).value)
  }

  // checkpoint_payload of the gateway
  function CheckpointPayload(checkpoint: Object): Option<seq<Byte>> {
    if Get(checkpoint, "schema") != Some(Str(CHECKPOINT_SCHEMA)) || !Valid(Obj(checkpoint)) then None
    else Some(CHECKPOINT_DOMAIN + CanonicalJson(Obj(checkpoint)).value)
  }

  // The signed bytes determine the checkpoint.
  lemma CheckpointPayloadInjective(a: Object, b: Object)
    requires CheckpointPayload(a).Some? && CheckpointPayload(a) == CheckpointPayload(b)
    ensures a == b
  {
    SamePrefix(CHECKPOINT_DOMAIN, CanonicalJson(Obj(a)).value, CanonicalJson(Obj(b)).value);
    JsonParser.CanonicalInjective(Obj(a), Obj(b));
  }
}
