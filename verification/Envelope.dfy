/**
 * Symbolic encryption: a key opens what it sealed and nothing else. A master key is derived from a password and
 * a salt; a data encryption key (DEK) is one of many random keys; any text can also be used as a key.
 */
module Envelope {
  import opened Wrappers

  datatype Key = Master(password: string, salt: nat) | Dek(id: nat) | Raw(text: string)
  datatype Plain = Text(text: string) | KeyBytes(key: Key)
  datatype Cipher = Sealed(key: Key, nonce: nat, plain: Plain) | Garbage(text: string)

  function Encrypt(key: Key, nonce: nat, plain: Plain): Cipher { Sealed(key, nonce, plain) }

  function Decrypt(key: Key, c: Cipher): Option<Plain> {
    if c.Sealed? && c.key == key then Some(c.plain) else None
  }

  /** The bytes of a plaintext, used as a key. */
  function AsKey(plain: Plain): Key {
    match plain
    case KeyBytes(key) => key
    case Text(text) => Raw(text)
  }

  predicate Opens(key: Key, c: Cipher, text: string) { Decrypt(key, c) == Some(Text(text)) }

  /** A wrapped key opens under exactly one password, to exactly one key. */
  lemma WrapOpensOnce(password: string, salt: nat, nonce: nat, dek: Key, other: string, k: Key)
    ensures Decrypt(Master(other, salt), Encrypt(Master(password, salt), nonce, KeyBytes(dek))) == Some(KeyBytes(k))
       <==> other == password && k == dek
  {}
}
