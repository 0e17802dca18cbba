/** Stored secrets as symbolic ciphertexts: encrypting under one key, reading under
    several. */
module Cipher {

  type Key = string

  /** A token made by encrypting `plain` under `key`, or text no key opens. `nonce` is
      the randomness of one encryption. */
  datatype Token = Sealed(key: Key, plain: string, nonce: int) | Junk(text: string)

  /** What a column holds. */
  datatype Cell = Null | Empty | V1(token: Token) | Unversioned(text: string)

  datatype Result<T> = Ok(value: T) | Failed

  /** `_decrypt`: one key. */
  function Decrypt(c: Cell, key: Key): Result<string> {
    match c
    case Null => Failed
    case Empty => Ok("")
    case Unversioned(_) => Failed
    case V1(Junk(_)) => Failed
    case V1(Sealed(k, plain, _)) => if k == key then Ok(plain) else Failed
  }

  /** `decrypt`: the first of several keys that opens it. */
  function DecryptAny(c: Cell, keys: seq<Key>): Result<string> {
    if keys == [] then if c == Empty then Ok("") else Failed
    else if Decrypt(c, keys[0]).Ok? then Decrypt(c, keys[0])
    else DecryptAny(c, keys[1..])
  }

  /** `encrypt`: under the first key; nothing stays nothing. */
  function Encrypt(plain: string, key: Key, nonce: int): Cell {
    if plain == "" then Empty else V1(Sealed(key, plain, nonce))
  }

  /** Reading undoes writing, as long as the writing key is among those tried. */
  lemma {:induction false} ReadsBack(plain: string, key: Key, nonce: int, keys: seq<Key>)
    ensures DecryptAny(Encrypt(plain, key, nonce), keys) == Ok(plain) <==> plain == "" || key in keys
  {
    if keys != [] {
      ReadsBack(plain, key, nonce, keys[1..]);
    }
  }

  /** What is read does not depend on which key opens it, nor on their order. */
  lemma {:induction false} AnyKeyReadsTheSame(c: Cell, keys: seq<Key>, more: seq<Key>)
    requires DecryptAny(c, keys).Ok? && forall k :: k in keys ==> k in more
    ensures DecryptAny(c, more) == DecryptAny(c, keys)
  {
    if keys == [] {
      EmptyReads(more);
    } else if Decrypt(c, keys[0]).Ok? {
      Opens(c, keys[0], more);
    } else {
      AnyKeyReadsTheSame(c, keys[1..], more);
    }
  }

  /** What is no ciphertext, or damaged, is read under no keys. */
  lemma {:induction false} NoCipherFails(c: Cell, keys: seq<Key>)
    requires c.Null? || c.Unversioned? || (c.V1? && c.token.Junk?)
    ensures DecryptAny(c, keys) == Failed
  {
    if keys != [] {
      NoCipherFails(c, keys[1..]);
    }
  }

  lemma {:induction false} EmptyReads(keys: seq<Key>)
    ensures DecryptAny(Empty, keys) == Ok("")
  {
  }

  lemma {:induction false} Opens(c: Cell, key: Key, keys: seq<Key>)
    requires Decrypt(c, key).Ok? && key in keys
    ensures DecryptAny(c, keys) == Decrypt(c, key)
  {
    if keys[0] != key {
      Opens(c, key, keys[1..]);
    }
  }

  /** `re_encrypt`: read under any configured key, write under the first. */
  function ReEncrypt(c: Cell, keys: seq<Key>, nonce: int): Result<Cell>
    requires keys != []
  {
    if c == Empty then Ok(Empty)
    else
      match DecryptAny(c, keys)
      case Failed => Failed
      case Ok(plain) => Ok(Encrypt(plain, keys[0], nonce))
  }

  /** After it the first key alone reads what all of them read before. */
  lemma ReEncryptMeaning(c: Cell, keys: seq<Key>, nonce: int)
    requires keys != []
    ensures ReEncrypt(c, keys, nonce).Ok? <==> DecryptAny(c, keys).Ok?
    ensures ReEncrypt(c, keys, nonce).Ok? ==>
      DecryptAny(ReEncrypt(c, keys, nonce).value, [keys[0]]) == DecryptAny(c, keys)
  {
    EmptyReads(keys);
    EmptyReads([keys[0]]);
    if c != Empty && DecryptAny(c, keys).Ok? {
      ReadsBack(DecryptAny(c, keys).value, keys[0], nonce, [keys[0]]);
    }
  }
}
