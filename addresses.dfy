/**
 * Chain addresses: a protocol tag and a payload. Only an ID address carries
 * an actor id directly; every other protocol is resolved through the init
 * actor's address map.
 */
module Addresses {

  datatype Protocol = ID | Secp256k1 | Actor | BLS | Delegated

  /** An ID address carries an actor id; the others carry key, hash or delegated-address bytes. */
  datatype Payload = ActorIdPayload(id: nat) | BytesPayload(bytes: seq<bv8>)

  datatype Address = Address(protocol: Protocol, payload: Payload)

  /** `Address::new_id`. */
  function NewId(id: nat): Address
  {
    Address(ID, ActorIdPayload(id))
  }
}
