/**
 Cipher block chaining (NIST SP 800-38A, section 6.2) over an arbitrary block permutation, with the
 zero padding of the Type1 transport.  The block cipher itself is a parameter.
 */
module Cbc {
  import opened Bytes
  import opened Wrappers

  const BLOCK_SIZE: nat := 16

  type Block = b: bytes | |b| == BLOCK_SIZE witness Zeros(BLOCK_SIZE)

  /** A block permutation under a fixed key, and the fixed initialization vector. */
  datatype Key = Key(encrypt: Block -> Block, decrypt: Block -> Block, iv: Block)

  ghost predicate Inverts(k: Key, b: Block) {
    k.decrypt(k.encrypt(b)) == b
  }

  ghost predicate ValidKey(k: Key) {
    forall b: Block :: Inverts(k, b)
  }

  function EncryptBlocks(k: Key, previous: Block, data: bytes): (r: bytes)
    requires |data| % BLOCK_SIZE == 0
    ensures |r| == |data|
    decreases |data|
  {
    if |data| < BLOCK_SIZE then []
    else
      var c := k.encrypt(Xor(data[..BLOCK_SIZE], previous));
      c + EncryptBlocks(k, c, data[BLOCK_SIZE..])
  }

  function DecryptBlocks(k: Key, previous: Block, data: bytes): (r: bytes)
    requires |data| % BLOCK_SIZE == 0
    ensures |r| == |data|
    decreases |data|
  {
    if |data| < BLOCK_SIZE then []
    else
      var c: Block := data[..BLOCK_SIZE];
      Xor(k.decrypt(c), previous) + DecryptBlocks(k, c, data[BLOCK_SIZE..])
  }

  /** Chained decryption undoes chained encryption, block by block. */
  lemma {:induction false} DecryptEncryptBlocks(k: Key, previous: Block, data: bytes)
    requires ValidKey(k) && |data| % BLOCK_SIZE == 0
    ensures DecryptBlocks(k, previous, EncryptBlocks(k, previous, data)) == data
    decreases |data|
  {
    if |data| >= BLOCK_SIZE {
      assert |data[..BLOCK_SIZE]| == BLOCK_SIZE;
      var x: Block := Xor(data[..BLOCK_SIZE], previous);
      var c: Block := k.encrypt(x);
      var rest := data[BLOCK_SIZE..];
      var e := EncryptBlocks(k, c, rest);
      assert Inverts(k, x);
      XorTwice(data[..BLOCK_SIZE], previous);
      DecryptEncryptBlocks(k, c, rest);
      assert (c + e)[..BLOCK_SIZE] == c && (c + e)[BLOCK_SIZE..] == e;
      assert data[..BLOCK_SIZE] + rest == data;
    }
  }

  /** The number of bytes whole blocks need to hold n bytes. */
  function PaddedLength(n: nat): (m: nat)
    ensures m % BLOCK_SIZE == 0 && n <= m < n + BLOCK_SIZE
  {
    (n + BLOCK_SIZE - 1) / BLOCK_SIZE * BLOCK_SIZE
  }

  function Pad(data: bytes): (r: bytes)
    ensures |r| == PaddedLength(|data|) && data <= r
  {
    data + Zeros(PaddedLength(|data|) - |data|)
  }

  function Encrypt(k: Key, data: bytes): (r: bytes)
    ensures |r| == PaddedLength(|data|)
  {
    EncryptBlocks(k, k.iv, Pad(data))
  }

  /** Ciphertext that is not a whole number of blocks is refused. */
  function Decrypt(k: Key, data: bytes): Option<bytes> {
    if |data| % BLOCK_SIZE != 0 then None else Some(DecryptBlocks(k, k.iv, data))
  }

  /** The plaintext comes back with its zero padding. */
  lemma DecryptEncrypt(k: Key, data: bytes)
    requires ValidKey(k)
    ensures Decrypt(k, Encrypt(k, data)) == Some(Pad(data))
  {
    DecryptEncryptBlocks(k, k.iv, Pad(data));
  }

  // ----- block by block -----

  /** The i-th sixteen octets. */
  function BlockAt(s: bytes, i: nat): Block
    requires 16 * i + 16 <= |s|
  {
    s[16 * i..16 * i + 16]
  }

  lemma LaterBlock(s: bytes, i: nat)
    requires 16 * i + 32 <= |s|
    ensures BlockAt(s[16..], i) == BlockAt(s, i + 1)
  {
  }

  lemma BlockBehind(c: Block, e: bytes, i: nat)
    requires 16 * i + 16 <= |e|
    ensures BlockAt(c + e, i + 1) == BlockAt(e, i)
  {
  }

  lemma FirstBlock(c: Block, e: bytes)
    ensures BlockAt(c + e, 0) == c
  {
  }

  /** The block before this one, or the vector. */
  function Before(s: bytes, previous: Block, i: nat): Block
    requires 16 * i + 16 <= |s|
  {
    if i == 0 then previous else BlockAt(s, i - 1)
  }

  lemma BeforeLater(s: bytes, previous: Block, i: nat)
    requires 16 * i + 32 <= |s|
    ensures Before(s[16..], BlockAt(s, 0), i) == Before(s, previous, i + 1)
  {
    if i > 0 {
      LaterBlock(s, i - 1);
    }
  }

  lemma BeforeBehind(c: Block, e: bytes, previous: Block, i: nat)
    requires 16 * i + 16 <= |e|
    ensures Before(e, c, i) == Before(c + e, previous, i + 1)
  {
    if i > 0 {
      BlockBehind(c, e, i - 1);
    } else {
      FirstBlock(c, e);
    }
  }

  /** Every ciphertext block is the encryption of its plaintext block with the ciphertext block before it. */
  lemma {:induction false} EncryptedBlock(k: Key, previous: Block, data: bytes, i: nat)
    requires |data| % 16 == 0 && 16 * i + 16 <= |data|
    ensures var r := EncryptBlocks(k, previous, data);
            BlockAt(r, i) == k.encrypt(Xor(BlockAt(data, i), Before(r, previous, i)))
    decreases i
  {
    var c: Block := k.encrypt(Xor(data[..16], previous));
    var e := EncryptBlocks(k, c, data[16..]);
    FirstBlock(c, e);
    if i == 0 {
      assert BlockAt(data, 0) == data[..16];
    } else {
      EncryptedBlock(k, c, data[16..], i - 1);
      LaterBlock(data, i - 1);
      BlockBehind(c, e, i - 1);
      BeforeBehind(c, e, previous, i - 1);
    }
  }

  /** Every plaintext block is the decryption of its ciphertext block with the ciphertext block before it. */
  lemma {:induction false} DecryptedBlock(k: Key, previous: Block, data: bytes, i: nat)
    requires |data| % 16 == 0 && 16 * i + 16 <= |data|
    ensures BlockAt(DecryptBlocks(k, previous, data), i)
            == Xor(k.decrypt(BlockAt(data, i)), Before(data, previous, i))
    decreases i
  {
    var c: Block := data[..16];
    var x: Block := Xor(k.decrypt(c), previous);
    var e := DecryptBlocks(k, c, data[16..]);
    assert BlockAt(data, 0) == c;
    FirstBlock(x, e);
    if i > 0 {
      DecryptedBlock(k, c, data[16..], i - 1);
      LaterBlock(data, i - 1);
      BlockBehind(x, e, i - 1);
      BeforeLater(data, previous, i - 1);
    }
  }

  /** Padding adds zeros up to the next multiple of sixteen. */
  lemma PaddingIsZero(data: bytes)
    ensures data <= Pad(data) && |Pad(data)| % 16 == 0 && |data| <= |Pad(data)| < |data| + 16
    ensures forall i :: |data| <= i < |Pad(data)| ==> Pad(data)[i] == 0
  {
    var z := Zeros(PaddedLength(|data|) - |data|);
    assert Pad(data) == data + z;
    forall i | |data| <= i < |Pad(data)|
      ensures Pad(data)[i] == 0
    {
      assert Pad(data)[i] == z[i - |data|];
    }
  }

  /** The blocks of an encrypted message, chained from the fixed vector. */
  lemma EncryptOctets(k: Key, data: bytes, i: nat)
    requires 16 * i < |data|
    ensures var c, p := Encrypt(k, data), Pad(data);
      && |c| == |p| && 16 * i + 16 <= |c|
      && BlockAt(c, i) == k.encrypt(Xor(BlockAt(p, i), if i == 0 then k.iv else BlockAt(c, i - 1)))
  {
    EncryptedBlock(k, k.iv, Pad(data), i);
  }

  /** Any whole number of blocks is decrypted, and nothing else is. */
  lemma DecryptOctets(k: Key, data: bytes, i: nat)
    ensures Decrypt(k, data).None? <==> |data| % 16 != 0
    ensures |data| % 16 == 0 && 16 * i + 16 <= |data| ==>
              var p := Decrypt(k, data).value;
              && |p| == |data|
              && BlockAt(p, i) == Xor(k.decrypt(BlockAt(data, i)), if i == 0 then k.iv else BlockAt(data, i - 1))
  {
    if |data| % 16 == 0 && 16 * i + 16 <= |data| {
      DecryptedBlock(k, k.iv, data, i);
    }
  }
}
