/** Padded Base64 (section 4 of RFC 4648) and the lenient decoder that reads it back. */
module Base64 {

  import opened Results

  type Byte = b: int | 0 <= b < 256
  type Sextet = b: int | 0 <= b < 64

  // ---------------------------------------------------------------- alphabet

  /** A character of encoded text: six bits, the pad, or one the alphabet does not contain. */
  datatype Symbol = Bits(value: Sextet) | Pad | Junk

  function CharOf(s: Symbol): (c: char)
    requires !s.Junk?
    ensures c < '\U{80}'
  {
    if s.Pad? then '='
    else if s.value < 26 then 'A' + s.value as char
    else if s.value < 52 then 'a' + (s.value - 26) as char
    else if s.value < 62 then '0' + (s.value - 52) as char
    else if s.value == 62 then '+' else '/'
  }

  function SymbolOf(c: char): Symbol {
    if 'A' <= c <= 'Z' then Bits((c - 'A') as int)
    else if 'a' <= c <= 'z' then Bits((c - 'a') as int + 26)
    else if '0' <= c <= '9' then Bits((c - '0') as int + 52)
    else if c == '+' then Bits(62)
    else if c == '/' then Bits(63)
    else if c == '=' then Pad
    else Junk
  }

  lemma AlphabetInverse(s: Symbol)
    requires !s.Junk?
    ensures SymbolOf(CharOf(s)) == s
  {
  }

  predicate Clean(symbols: seq<Symbol>) {
    forall i :: 0 <= i < |symbols| ==> !symbols[i].Junk?
  }

  predicate IsAscii(text: string) {
    forall i :: 0 <= i < |text| ==> text[i] < '\U{80}'
  }

  function Chars(symbols: seq<Symbol>): (text: string)
    requires Clean(symbols)
    ensures IsAscii(text)
  {
    seq(|symbols|, i requires 0 <= i < |symbols| => CharOf(symbols[i]))
  }

  function Symbols(text: string): seq<Symbol> {
    seq(|text|, i requires 0 <= i < |text| => SymbolOf(text[i]))
  }

  lemma SymbolsChars(symbols: seq<Symbol>)
    requires Clean(symbols)
    ensures Symbols(Chars(symbols)) == symbols
  {
    forall i | 0 <= i < |symbols|
      ensures Symbols(Chars(symbols))[i] == symbols[i]
    {
      AlphabetInverse(symbols[i]);
    }
  }

  // ---------------------------------------------------------------- grouping

  // The four sextets of three bytes; a missing byte counts as zero.

  function First(a: Byte): Symbol {
    Bits(a / 4)
  }

  function Second(a: Byte, b: Byte): Symbol {
    Bits(a % 4 * 16 + b / 16)
  }

  function Third(b: Byte, c: Byte): Symbol {
    Bits(b % 16 * 4 + c / 64)
  }

  function Fourth(c: Byte): Symbol {
    Bits(c % 64)
  }

  function Group(data: seq<Byte>): (group: seq<Symbol>)
    requires 1 <= |data| <= 3
    ensures |group| == 4 && Clean(group)
  {
    if |data| == 1 then [First(data[0]), Second(data[0], 0), Pad, Pad]
    else if |data| == 2 then [First(data[0]), Second(data[0], data[1]), Third(data[1], 0), Pad]
    else [First(data[0]), Second(data[0], data[1]), Third(data[1], data[2]), Fourth(data[2])]
  }

  function Groups(data: seq<Byte>): (groups: seq<Symbol>)
    ensures |groups| == (|data| + 2) / 3 * 4 && Clean(groups)
  {
    if data == [] then []
    else if |data| <= 3 then Group(data)
    else Group(data[..3]) + Groups(data[3..])
  }

  /** Position within a group of four, the bits carried over, and the pads seen since the last symbol. */
  datatype Cursor = Cursor(position: nat, carry: nat, pads: nat)
  {
    predicate Valid() {
      && position < 4
      && carry < (if position == 0 then 1 else if position == 1 then 64 else if position == 2 then 16 else 4)
    }
  }

  const START := Cursor(0, 0, 0)

  /** What six more bits add to the output, and the cursor after them. */
  function Advance(k: Cursor, v: Sextet): (r: (seq<Byte>, Cursor))
    requires k.Valid()
    ensures r.1.Valid()
  {
    match k.position
    case 0 => ([], Cursor(1, v, 0))
    case 1 => ([k.carry * 4 + v / 16], Cursor(2, v % 16, 0))
    case 2 => ([k.carry * 16 + v / 4], Cursor(3, v % 4, 0))
    case _ => ([k.carry * 64 + v], START)
  }

  /**
   * Non-validating decoding as the standard decoder does it: characters outside the alphabet are
   * skipped, a completed pad ends the input, and leftover bits are an error.
   */
  function Ungroup(symbols: seq<Symbol>, k: Cursor): Option<seq<Byte>>
    requires k.Valid()
  {
    if symbols == [] then (if k.position == 0 then Some([]) else None)
    else
      match symbols[0]
      case Pad =>
        if k.position >= 2 && k.position + k.pads + 1 >= 4 then Some([])
        else Ungroup(symbols[1..], if k.position >= 2 then k.(pads := k.pads + 1) else k)
      case Junk => Ungroup(symbols[1..], k)
      case Bits(v) => After(Advance(k, v).0, Ungroup(symbols[1..], Advance(k, v).1))
  }

  /** Output already produced, in front of the rest; nothing at all when the rest fails. */
  function After(output: seq<Byte>, rest: Option<seq<Byte>>): Option<seq<Byte>> {
    match rest
    case Some(tail) => Some(output + tail)
    case None => None
  }

  lemma FirstAdvances(a: Byte)
    ensures Advance(START, First(a).value) == ([], Cursor(1, a / 4, 0))
  {
  }

  lemma SecondAdvances(a: Byte, b: Byte)
    ensures Advance(Cursor(1, a / 4, 0), Second(a, b).value) == ([a], Cursor(2, b / 16, 0))
  {
  }

  lemma ThirdAdvances(b: Byte, c: Byte)
    ensures Advance(Cursor(2, b / 16, 0), Third(b, c).value) == ([b], Cursor(3, c / 64, 0))
  {
  }

  lemma FourthAdvances(c: Byte)
    ensures Advance(Cursor(3, c / 64, 0), Fourth(c).value) == ([c], START)
  {
  }

  lemma UngroupSymbol(symbols: seq<Symbol>, v: Sextet, k: Cursor, output: seq<Byte>, next: Cursor)
    requires symbols != [] && symbols[0] == Bits(v) && k.Valid() && Advance(k, v) == (output, next)
    ensures next.Valid() && Ungroup(symbols, k) == After(output, Ungroup(symbols[1..], next))
  {
  }

  lemma AfterTwice(x: seq<Byte>, y: seq<Byte>, rest: Option<seq<Byte>>)
    ensures After(x, After(y, rest)) == After(x + y, rest)
    ensures After([], rest) == rest
  {
    if rest.Some? {
      assert x + (y + rest.value) == x + y + rest.value;
      assert [] + rest.value == rest.value;
    }
  }

  /** The first two symbols of a group complete its first byte. */
  lemma UngroupFirstByte(symbols: seq<Symbol>, a: Byte, b: Byte)
    requires |symbols| >= 2 && symbols[0] == First(a) && symbols[1] == Second(a, b)
    ensures Ungroup(symbols, START) == After([a], Ungroup(symbols[2..], Cursor(2, b / 16, 0)))
  {
    var k1, k2 := Cursor(1, a / 4, 0), Cursor(2, b / 16, 0);
    FirstAdvances(a);
    SecondAdvances(a, b);
    UngroupSymbol(symbols, First(a).value, START, [], k1);
    UngroupSymbol(symbols[1..], Second(a, b).value, k1, [a], k2);
    AfterTwice([], [a], Ungroup(symbols[2..], k2));
    assert [] + [a] == [a];
    assert symbols[1..][1..] == symbols[2..];
  }

  lemma UngroupSecondByte(symbols: seq<Symbol>, b: Byte, c: Byte)
    requires symbols != [] && symbols[0] == Third(b, c)
    ensures Ungroup(symbols, Cursor(2, b / 16, 0)) == After([b], Ungroup(symbols[1..], Cursor(3, c / 64, 0)))
  {
    ThirdAdvances(b, c);
    UngroupSymbol(symbols, Third(b, c).value, Cursor(2, b / 16, 0), [b], Cursor(3, c / 64, 0));
  }

  lemma UngroupThirdByte(symbols: seq<Symbol>, c: Byte)
    requires symbols != [] && symbols[0] == Fourth(c)
    ensures Ungroup(symbols, Cursor(3, c / 64, 0)) == After([c], Ungroup(symbols[1..], START))
  {
    FourthAdvances(c);
    UngroupSymbol(symbols, Fourth(c).value, Cursor(3, c / 64, 0), [c], START);
  }

  lemma UngroupPads(pads: seq<Symbol>)
    requires pads == [Pad, Pad] || pads == [Pad]
    ensures Ungroup(pads, Cursor(4 - |pads|, 0, 0)) == Some([])
  {
    if |pads| == 2 {
      assert Ungroup(pads[1..], Cursor(2, 0, 1)) == Some([]);
    }
  }

  /** One group yields its bytes; after a full group decoding goes on with what follows. */
  lemma UngroupGroup(data: seq<Byte>, rest: seq<Symbol>)
    requires |data| == 3 || (1 <= |data| < 3 && rest == [])
    ensures Ungroup(Group(data) + rest, START) == After(data, if |data| == 3 then Ungroup(rest, START) else Some([]))
  {
    var s, a := Group(data) + rest, data[0];
    assert data + [] == data;
    if |data| == 1 {
      UngroupFirstByte(s, a, 0);
      assert s[2..] == [Pad, Pad];
      UngroupPads(s[2..]);
      assert [a] + [] == data;
    } else {
      var b := data[1];
      UngroupFirstByte(s, a, b);
      if |data| == 2 {
        UngroupSecondByte(s[2..], b, 0);
        assert s[2..][1..] == [Pad];
        UngroupPads(s[2..][1..]);
        assert [a] + ([b] + []) == data;
      } else {
        UngroupSecondByte(s[2..], b, data[2]);
        UngroupThirdByte(s[2..][1..], data[2]);
        assert s[2..][1..][1..] == rest;
        AfterTwice([b], [data[2]], Ungroup(rest, START));
        AfterTwice([a], [b] + [data[2]], Ungroup(rest, START));
        assert [a] + ([b] + [data[2]]) == data;
      }
    }
  }

  lemma {:induction false} UngroupGroups(data: seq<Byte>)
    ensures Ungroup(Groups(data), START) == Some(data)
  {
    if data != [] {
      if |data| <= 3 {
        UngroupGroup(data, []);
        assert Group(data) + [] == Group(data);
        assert data + [] == data;
      } else {
        UngroupGroups(data[3..]);
        UngroupGroup(data[..3], Groups(data[3..]));
        assert data[..3] + data[3..] == data;
      }
    }
  }

  // ---------------------------------------------------------------- text

  function Encode(data: seq<Byte>): (text: string)
    ensures IsAscii(text)
  {
    Chars(Groups(data))
  }

  function Decode(text: string): Option<seq<Byte>> {
    Ungroup(Symbols(text), START)
  }

  /** The alphabet of the standard: four runs of consecutive characters and two singles. */
  lemma StandardAlphabet(b: Sextet)
    ensures CharOf(Bits(0)) == 'A' && CharOf(Bits(26)) == 'a' && CharOf(Bits(52)) == '0'
    ensures CharOf(Bits(62)) == '+' && CharOf(Bits(63)) == '/' && CharOf(Pad) == '='
    ensures b !in {25, 51, 61, 62, 63} ==> CharOf(Bits(b + 1)) as int == CharOf(Bits(b)) as int + 1
  {
  }

  function ByteAt(data: seq<Byte>, i: nat): Byte {
    if i < |data| then data[i] else 0
  }

  function BitsAt(group: seq<Symbol>, i: nat): Sextet {
    if i < |group| && group[i].Bits? then group[i].value else 0
  }

  /** A group spells the same 24-bit number as its bytes, most significant first, and pads what is missing. */
  lemma GroupIsBigEndian(data: seq<Byte>)
    requires 1 <= |data| <= 3
    ensures
      var g := Group(data);
      && ((BitsAt(g, 0) * 64 + BitsAt(g, 1)) * 64 + BitsAt(g, 2)) * 64 + BitsAt(g, 3)
         == (ByteAt(data, 0) * 256 + ByteAt(data, 1)) * 256 + ByteAt(data, 2)
      && forall i :: 0 <= i < 4 ==> (g[i] == Pad <==> i > |data|)
  {
  }

  /** Text is encoded three bytes at a time, to four characters each. */
  lemma EncodeByGroups(data: seq<Byte>)
    ensures |Encode(data)| == (|data| + 2) / 3 * 4
    ensures |data| > 3 ==> Encode(data) == Encode(data[..3]) + Encode(data[3..])
  {
    if |data| > 3 {
      var first := data[..3];
      assert Groups(first) == Group(first);
      assert Groups(data) == Groups(first) + Groups(data[3..]);
    }
  }

  /** Vectors from section 10 of the standard. */
  lemma StandardVectors()
    ensures Encode([102]) == "Zg==" && Encode([102, 111, 111]) == "Zm9v"
  {
    assert Groups([102]) == [Bits(25), Bits(32), Pad, Pad];
    assert Groups([102, 111, 111]) == [Bits(25), Bits(38), Bits(61), Bits(47)];
  }

  /** Every byte string survives encoding and decoding. */
  lemma DecodeEncode(data: seq<Byte>)
    ensures Decode(Encode(data)) == Some(data)
  {
    SymbolsChars(Groups(data));
    UngroupGroups(data);
  }
}
