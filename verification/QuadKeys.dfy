/**
  Quad keys: four permutations of a quad, each written as one prefix byte and
  four big-endian words, and what their byte order means.
*/
module QuadKeys {
  import opened Common
  import opened StringOrder

  /** A byte, as a character so that keys are ordered like strings. */
  type Byte = c: char | c as int < 256 witness '0'

  type Key = seq<Byte>

  const WORDS := 0x1_0000_0000_0000_0000

  type Word = x: int | 0 <= x < 0x1_0000_0000_0000_0000

  datatype Quad = Quad(s: Word, p: Word, o: Word, g: Word)

  const SPOG: Byte := 16 as char
  const POSG: Byte := 17 as char
  const PSOG: Byte := 18 as char
  const GSPO: Byte := 19 as char
  const SYSTEM: Byte := 255 as char

  const PREFIXES: seq<Byte> := [SPOG, POSG, PSOG, GSPO]

  /** The words of a quad in the order an index keeps them. */
  function Permuted(prefix: Byte, q: Quad): seq<Word>
    requires prefix in PREFIXES
    ensures |Permuted(prefix, q)| == 4
  {
    if prefix == SPOG then [q.s, q.p, q.o, q.g]
    else if prefix == POSG then [q.p, q.o, q.s, q.g]
    else if prefix == PSOG then [q.p, q.s, q.o, q.g]
    else [q.g, q.s, q.p, q.o]
  }

  // ----- Big-endian words ------------------------------------------------

  function Power(n: nat): nat {
    if n == 0 then 1 else 256 * Power(n - 1)
  }

  function BigEndian(v: nat, n: nat): (bytes: Key)
    ensures |bytes| == n
  {
    if n == 0 then [] else BigEndian(v / 256, n - 1) + [(v % 256) as char]
  }

  function Value(bytes: Key): nat {
    if bytes == [] then 0 else 256 * Value(bytes[..|bytes| - 1]) + bytes[|bytes| - 1] as int
  }

  lemma {:induction false} ValueOfBigEndian(v: nat, n: nat)
    requires v < Power(n)
    ensures Value(BigEndian(v, n)) == v
  {
    if n > 0 {
      ValueOfBigEndian(v / 256, n - 1);
      var bytes := BigEndian(v, n);
      assert bytes[..n - 1] == BigEndian(v / 256, n - 1);
    }
  }

  lemma {:induction false} BigEndianOfValue(bytes: Key)
    ensures Value(bytes) < Power(|bytes|)
    ensures BigEndian(Value(bytes), |bytes|) == bytes
  {
    if bytes != [] {
      BigEndianOfValue(bytes[..|bytes| - 1]);
      assert bytes == bytes[..|bytes| - 1] + [bytes[|bytes| - 1]];
    }
  }

  lemma EightBytes()
    ensures Power(8) == WORDS
  {
    assert Power(2) == 0x1_0000;
    assert Power(4) == 0x1_0000_0000;
    assert Power(6) == 0x1_0000_0000_0000;
  }

  // ----- Keys ------------------------------------------------------------

  function Encode(w: Word): Key {
    BigEndian(w, 8)
  }

  function KeyOf(prefix: Byte, q: Quad): Key
    requires prefix in PREFIXES
  {
    var w := Permuted(prefix, q);
    [prefix] + Encode(w[0]) + Encode(w[1]) + Encode(w[2]) + Encode(w[3])
  }

  /** The word at a byte offset of a key. */
  function WordAt(key: Key, offset: nat): Word
    requires offset + 8 <= |key|
  {
    EightBytes();
    BigEndianOfValue(key[offset..offset + 8]);
    Value(key[offset..offset + 8])
  }

  /** Reads a key back; anything of another length or prefix is an error. */
  function DecodeQuadKey(key: Key): Option<Quad> {
    if |key| != 33 then None
    else
      var a, b, c, d := WordAt(key, 1), WordAt(key, 9), WordAt(key, 17), WordAt(key, 25);
      if key[0] == SPOG then Some(Quad(a, b, c, d))
      else if key[0] == POSG then Some(Quad(c, a, b, d))
      else if key[0] == PSOG then Some(Quad(b, a, c, d))
      else if key[0] == GSPO then Some(Quad(b, c, d, a))
      else None
  }

  lemma WordRoundTrip(w: Word)
    ensures Value(Encode(w)) == w
  {
    EightBytes();
    ValueOfBigEndian(w, 8);
  }

  /** Decoding undoes encoding in each of the four indexes. */
  lemma DecodeUndoesEncode(prefix: Byte, q: Quad)
    requires prefix in PREFIXES
    ensures DecodeQuadKey(KeyOf(prefix, q)) == Some(q)
  {
    var w := Permuted(prefix, q);
    var key := KeyOf(prefix, q);
    WordRoundTrip(w[0]);
    WordRoundTrip(w[1]);
    WordRoundTrip(w[2]);
    WordRoundTrip(w[3]);
    assert key[1..9] == Encode(w[0]);
    assert key[9..17] == Encode(w[1]);
    assert key[17..25] == Encode(w[2]);
    assert key[25..33] == Encode(w[3]);
  }

  /** And encoding undoes decoding: a key decodes exactly when it is the key of some quad. */
  lemma EncodeUndoesDecode(key: Key)
    ensures DecodeQuadKey(key).Some? <==> |key| == 33 && key[0] in PREFIXES
    ensures DecodeQuadKey(key).Some? ==> KeyOf(key[0], DecodeQuadKey(key).value) == key
  {
    if DecodeQuadKey(key).Some? {
      BigEndianOfValue(key[1..9]);
      BigEndianOfValue(key[9..17]);
      BigEndianOfValue(key[17..25]);
      BigEndianOfValue(key[25..33]);
      assert key == [key[0]] + key[1..9] + key[9..17] + key[17..25] + key[25..33];
    }
  }

  // ----- Order -----------------------------------------------------------

  /** With equally long heads the order is decided by the heads, then by the tails. */
  lemma {:induction false} LessOfConcat(a: Key, b: Key, s: Key, t: Key)
    requires |a| == |b|
    ensures Less(a + s, b + t) <==> Less(a, b) || (a == b && Less(s, t))
  {
    if a == [] {
      assert a + s == s && b + t == t;
    } else {
      LessOfConcat(a[1..], b[1..], s, t);
      assert (a + s)[1..] == a[1..] + s && (b + t)[1..] == b[1..] + t;
      assert a == [a[0]] + a[1..] && b == [b[0]] + b[1..];
    }
  }

  /** Big-endian bytes compare like the numbers they write. */
  lemma {:induction false} LessIsNumeric(a: Key, b: Key)
    requires |a| == |b|
    ensures Less(a, b) <==> Value(a) < Value(b)
  {
    if a != [] {
      var x, y := a[..|a| - 1], b[..|b| - 1];
      LessIsNumeric(x, y);
      LessOfConcat(x, y, [a[|a| - 1]], [b[|b| - 1]]);
      assert a == x + [a[|a| - 1]] && b == y + [b[|b| - 1]];
      BigEndianOfValue(x);
      BigEndianOfValue(y);
      assert x == y <==> Value(x) == Value(y);
    }
  }

  predicate TupleLess(a: seq<Word>, b: seq<Word>)
    requires |a| == |b|
  {
    a != [] && (a[0] < b[0] || (a[0] == b[0] && TupleLess(a[1..], b[1..])))
  }

  function EncodeAll(words: seq<Word>): Key {
    if words == [] then [] else Encode(words[0]) + EncodeAll(words[1..])
  }

  lemma {:induction false} TuplesInOrder(a: seq<Word>, b: seq<Word>)
    requires |a| == |b|
    ensures Less(EncodeAll(a), EncodeAll(b)) <==> TupleLess(a, b)
  {
    if a != [] {
      TuplesInOrder(a[1..], b[1..]);
      LessOfConcat(Encode(a[0]), Encode(b[0]), EncodeAll(a[1..]), EncodeAll(b[1..]));
      LessIsNumeric(Encode(a[0]), Encode(b[0]));
      WordRoundTrip(a[0]);
      WordRoundTrip(b[0]);
    }
  }

  /** The order of each index: which word decides first, and which only among equals. */
  predicate Before(prefix: Byte, q: Quad, r: Quad) {
    || (prefix == SPOG && TupleLess([q.s, q.p, q.o, q.g], [r.s, r.p, r.o, r.g]))
    || (prefix == POSG && TupleLess([q.p, q.o, q.s, q.g], [r.p, r.o, r.s, r.g]))
    || (prefix == PSOG && TupleLess([q.p, q.s, q.o, q.g], [r.p, r.s, r.o, r.g]))
    || (prefix == GSPO && TupleLess([q.g, q.s, q.p, q.o], [r.g, r.s, r.p, r.o]))
  }

  /** Byte order of keys in an index is the numeric order of its words. */
  lemma KeysInTupleOrder(prefix: Byte, q: Quad, r: Quad)
    requires prefix in PREFIXES
    ensures Less(KeyOf(prefix, q), KeyOf(prefix, r)) <==> Before(prefix, q, r)
  {
    var a, b := Permuted(prefix, q), Permuted(prefix, r);
    KeyIsPrefixAndWords(prefix, q);
    KeyIsPrefixAndWords(prefix, r);
    LessOfConcat([prefix], [prefix], EncodeAll(a), EncodeAll(b));
    LessIsTotal([prefix], [prefix]);
    TuplesInOrder(a, b);
  }

  lemma KeyIsPrefixAndWords(prefix: Byte, q: Quad)
    requires prefix in PREFIXES
    ensures KeyOf(prefix, q) == [prefix] + EncodeAll(Permuted(prefix, q))
  {
    var w := Permuted(prefix, q);
    assert w == [w[0], w[1], w[2], w[3]];
    assert w[1..] == [w[1], w[2], w[3]] && w[2..] == [w[2], w[3]] && w[3..] == [w[3]];
    assert EncodeAll(w[3..]) == Encode(w[3]) + EncodeAll([]);
    assert EncodeAll(w[2..]) == Encode(w[2]) + EncodeAll(w[3..]) by { assert w[2..][1..] == w[3..]; }
    assert EncodeAll(w[1..]) == Encode(w[1]) + EncodeAll(w[2..]) by { assert w[1..][1..] == w[2..]; }
  }

  lemma KeyIsInjective(prefix: Byte, q: Quad, prefix': Byte, q': Quad)
    requires prefix in PREFIXES && prefix' in PREFIXES && KeyOf(prefix, q) == KeyOf(prefix', q')
    ensures prefix == prefix' && q == q'
  {
    DecodeUndoesEncode(prefix, q);
    DecodeUndoesEncode(prefix', q');
    assert KeyOf(prefix, q)[0] == prefix && KeyOf(prefix', q')[0] == prefix';
  }

  // ----- Writing into a buffer -------------------------------------------

  /** Writes a word most significant byte first. */
  method PutUint64(key: array<Byte>, offset: nat, v: Word)
    requires offset + 8 <= key.Length
    modifies key
    ensures key[..] == old(key[..offset]) + Encode(v) + old(key[offset + 8..])
  {
    var rest, i := v, 8;
    while i > 0
      invariant 0 <= i <= 8 && 0 <= rest
      invariant BigEndian(rest, i) + key[offset + i..offset + 8] == Encode(v)
      invariant key[..offset + i] == old(key[..offset + i]) && key[offset + 8..] == old(key[offset + 8..])
    {
      i := i - 1;
      ghost var tail := key[offset + i + 1..offset + 8];
      assert BigEndian(rest, i + 1) == BigEndian(rest / 256, i) + [(rest % 256) as char];
      key[offset + i] := (rest % 256) as char;
      rest := rest / 256;
      assert key[offset + i..offset + 8] == [key[offset + i]] + tail;
    }
    assert key[..] == key[..offset] + key[offset..offset + 8] + key[offset + 8..];
  }

  /** The 33-byte key of a quad; an unknown prefix panics, which is `None` here. */
  method EncodeQuadKey(prefix: Byte, q: Quad) returns (key: Option<Key>)
    ensures key == if prefix in PREFIXES then Some(KeyOf(prefix, q)) else None
  {
    if prefix !in PREFIXES {
      return None;
    }
    var buf := new Byte[33](_ => '\0');
    buf[0] := prefix;
    ghost var w := Permuted(prefix, q);
    if prefix == SPOG {
      FillKey(buf, q.s, q.p, q.o, q.g);
    } else if prefix == POSG {
      FillKey(buf, q.p, q.o, q.s, q.g);
    } else if prefix == PSOG {
      FillKey(buf, q.p, q.s, q.o, q.g);
    } else {
      FillKey(buf, q.g, q.s, q.p, q.o);
    }
    key := Some(buf[..]);
  }

  method FillKey(buf: array<Byte>, a: Word, b: Word, c: Word, d: Word)
    requires buf.Length == 33
    modifies buf
    ensures buf[..] == [old(buf[0])] + Encode(a) + Encode(b) + Encode(c) + Encode(d)
  {
    PutUint64(buf, 1, a);
    assert buf[..9] == [old(buf[0])] + Encode(a);
    PutUint64(buf, 9, b);
    assert buf[..17] == [old(buf[0])] + Encode(a) + Encode(b);
    PutUint64(buf, 17, c);
    assert buf[..25] == [old(buf[0])] + Encode(a) + Encode(b) + Encode(c);
    PutUint64(buf, 25, d);
    assert buf[..33] == buf[..];
  }
}
