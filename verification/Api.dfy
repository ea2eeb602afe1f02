/** Values exchanged with clients (app/schemas.py) and the idempotency records built from them. */
module Api {
  import opened Redis
  import opened Wrappers

  type Url = string
  type Code = string

  /** A validated URLCreateRequest. */
  datatype Payload = Payload(url: Url, customAlias: Option<Code>)

  /** A URLCreateResponse. */
  datatype CreateResponse = CreateResponse(short_code: Code, short_url: string, original_url: Url, created_at: Time)

  /** The SHA-256 of a payload, taken to be injective: the digest determines the payload. */
  datatype Digest = Sha256(payload: Payload)

  /** What is stored under an idempotency key. */
  datatype Record = Record(payload_hash: Digest, status_code: int, response_data: CreateResponse)
}
