/** The exceptions the session store raises, one constructor per distinct failure. */
module Errors {

  datatype SessionError =
    | InvalidSessionId          // an explicit id that fails the format check
    | EncryptionKeyRequired     // the `key` option is missing or empty
    | PreviousKeysNotArray      // the `previous_keys` option is not an array
    | PreviousKeyEmpty          // an entry of `previous_keys` is not a non-empty string
    | EncryptionKeyLength       // key material does not resolve to 32 bytes
    | EncryptedPayloadExpected  // a payload without the version tag while plaintext is refused
    | InvalidPayloadEncoding    // the envelope body is not strict base64
    | InvalidEncryptedPayload   // the decoded envelope is no longer than a nonce
    | DecryptionFailed          // no configured key opens the envelope
    | CookieIdNotString         // the `SESSION_ID` cookie is an array, which `isValidId(?string)` refuses (a TypeError)
    /**
     * The payload is not valid JSON (a RuntimeException), or it is JSON that is
     * not an object (a TypeError on assigning it to the `array`-typed `$data`):
     * both failures leave the data unchanged and are one error here.
     */
    | InvalidSessionPayload
}
