/** 32-bit little-endian words in byte sequences, as the compiler lays out `int` and `u32` fields. */
module Words {
  import opened BlockDevice

  const WORD := 0x1_0000_0000

  type word = w: nat | w < WORD

  function ByteVal(b: byte): (v: nat)
    ensures v < 256
  {
    b as int
  }

  function ValByte(v: nat): byte
    requires v < 256
  {
    v as byte
  }

  lemma NextByte(b: byte)
    requires b < 255
    ensures ByteVal(b + 1) == ByteVal(b) + 1
  {
  }

  lemma {:induction false} SomeByte(v: nat)
    requires v < 256
    ensures exists b :: ByteVal(b) == v
  {
    if v == 0 {
      assert ByteVal(0) == 0;
    } else {
      SomeByte(v - 1);
      var b :| ByteVal(b) == v - 1;
      NextByte(b);
    }
  }

  lemma ByteBack(b: byte)
    ensures ValByte(ByteVal(b)) == b
  {
  }

  lemma ByteRound(v: nat)
    requires v < 256
    ensures ByteVal(ValByte(v)) == v
  {
    hide ByteVal, ValByte;
    SomeByte(v);
    var b :| ByteVal(b) == v;
    ByteBack(b);
  }

  function Join(a: nat, b: nat, c: nat, d: nat): nat { a + 0x100 * (b + 0x100 * (c + 0x100 * d)) }

  /** The word at offset `p`. */
  function WordAt(d: seq<byte>, p: nat): word
    requires p + 4 <= |d|
  {
    Join(ByteVal(d[p]), ByteVal(d[p + 1]), ByteVal(d[p + 2]), ByteVal(d[p + 3]))
  }

  function WordBytes(w: word): (b: seq<byte>)
    ensures |b| == 4
  {
    [ValByte(w % 0x100), ValByte(w / 0x100 % 0x100), ValByte(w / 0x100 / 0x100 % 0x100),
      ValByte(w / 0x100 / 0x100 / 0x100)]
  }

  lemma WordRound(w: word)
    ensures WordAt(WordBytes(w), 0) == w
  {
    hide ByteVal, ValByte;
    ByteRound(w % 0x100);
    ByteRound(w / 0x100 % 0x100);
    ByteRound(w / 0x100 / 0x100 % 0x100);
    ByteRound(w / 0x100 / 0x100 / 0x100);
  }

  lemma Split(a: nat, q: nat)
    requires a < 0x100
    ensures (a + 0x100 * q) % 0x100 == a && (a + 0x100 * q) / 0x100 == q
  {
  }

  /** Four bytes are the bytes of the word they hold. */
  lemma WordBack(b: seq<byte>)
    requires |b| == 4
    ensures WordBytes(WordAt(b, 0)) == b
  {
    hide ByteVal, ValByte;
    var v0, v1, v2, v3 := ByteVal(b[0]), ByteVal(b[1]), ByteVal(b[2]), ByteVal(b[3]);
    Split(v0, v1 + 0x100 * (v2 + 0x100 * v3));
    Split(v1, v2 + 0x100 * v3);
    Split(v2, v3);
    ByteBack(b[0]);
    ByteBack(b[1]);
    ByteBack(b[2]);
    ByteBack(b[3]);
  }

  /** A word depends on its four bytes only. */
  lemma WordSame(d: seq<byte>, p: nat, e: seq<byte>, q: nat)
    requires p + 4 <= |d| && q + 4 <= |e| && d[p..p + 4] == e[q..q + 4]
    ensures WordAt(d, p) == WordAt(e, q)
  {
    hide ByteVal;
    var s, t := d[p..p + 4], e[q..q + 4];
    assert s[0] == t[0] && s[1] == t[1] && s[2] == t[2] && s[3] == t[3];
  }
}
