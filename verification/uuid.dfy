/** UUIDs and their text form, hex and dashes, of section 4 of RFC 9562. */
module Uuids {
  import opened Wrappers
  import opened Wire

  type Uuid = u: Bytes | |u| == 16 witness [0, 0, 0, 0, 0, 0, 0, 0, 0, 0, 0, 0, 0, 0, 0, 0]

  /** uuid.Nil: as a payer it means none is named. */
  const NIL: Uuid := [0, 0, 0, 0, 0, 0, 0, 0, 0, 0, 0, 0, 0, 0, 0, 0]

  function HexDigit(n: nat): char
    requires n < 16
  {
    "0123456789abcdef"[n]
  }

  /** A hex digit of either case. */
  function HexValue(c: char): Option<nat> {
    if '0' <= c <= '9' then Some((c - '0') as nat)
    else if 'a' <= c <= 'f' then Some((c - 'a') as nat + 10)
    else if 'A' <= c <= 'F' then Some((c - 'A') as nat + 10)
    else None
  }

  function Lower(c: char): char {
    if 'A' <= c <= 'F' then c - 'A' + 'a' else c
  }

  function LowerText(s: string): string {
    seq(|s|, i requires 0 <= i < |s| => Lower(s[i]))
  }

  function HexText(b: Bytes): (s: string)
    ensures |s| == 2 * |b|
  {
    if b == [] then "" else [HexDigit(b[0] / 16), HexDigit(b[0] % 16)] + HexText(b[1..])
  }

  function ParseHex(s: string): (r: Option<Bytes>)
    ensures r.Some? ==> |s| == 2 * |r.value|
  {
    if s == "" then Some([])
    else if |s| == 1 then None
    else match (HexValue(s[0]), HexValue(s[1]), ParseHex(s[2..]))
         case (Some(high), Some(low), Some(more)) => Some([Octet(high, low)] + more)
         case _ => None
  }

  function Octet(high: nat, low: nat): byte {
    if high < 16 && low < 16 then high * 16 + low else 0
  }

  lemma DigitReads(c: char, n: nat)
    requires n < 16
    ensures HexValue(c) == Some(n) <==> Lower(c) == HexDigit(n)
    ensures HexValue(c).Some? ==> HexValue(c).value < 16
  {
  }

  lemma OctetReads(s0: char, s1: char, b: byte)
    ensures HexValue(s0).Some? && HexValue(s1).Some? && Octet(HexValue(s0).value, HexValue(s1).value) == b
            <==> Lower(s0) == HexDigit(b / 16) && Lower(s1) == HexDigit(b % 16)
  {
    DigitReads(s0, b / 16);
    DigitReads(s1, b % 16);
    if HexValue(s0).Some? && HexValue(s1).Some? {
      OctetIs(HexValue(s0).value, HexValue(s1).value, b);
    }
  }

  lemma OctetIs(high: nat, low: nat, b: byte)
    requires high < 16 && low < 16
    ensures Octet(high, low) == b <==> high == b / 16 && low == b % 16
  {
  }

  /** A run of hex digits reads as b exactly when it is b's text up to case. */
  lemma {:induction false} HexReads(s: string, b: Bytes)
    ensures ParseHex(s) == Some(b) <==> LowerText(s) == HexText(b)
  {
    if s != "" && |s| != 1 && b != [] {
      HexReads(s[2..], b[1..]);
      OctetReads(s[0], s[1], b[0]);
      assert LowerText(s) == [Lower(s[0]), Lower(s[1])] + LowerText(s[2..]);
      assert LowerText(s) == HexText(b) <==>
             && Lower(s[0]) == HexDigit(b[0] / 16) && Lower(s[1]) == HexDigit(b[0] % 16)
             && LowerText(s[2..]) == HexText(b[1..]) by {
        var l, h := LowerText(s), HexText(b);
        assert l[0] == Lower(s[0]) && l[1] == Lower(s[1]) && l[2..] == LowerText(s[2..]);
        assert h[2..] == HexText(b[1..]) && h == [h[0], h[1]] + h[2..] && l == [l[0], l[1]] + l[2..];
      }
      assert b == [b[0]] + b[1..];
    }
  }

  /** String(): eight, four, four, four and twelve lower-case digits. */
  function Print(u: Uuid): (s: string)
    ensures |s| == 36
  {
    HexText(u[..4]) + "-" + HexText(u[4..6]) + "-" + HexText(u[6..8]) + "-" + HexText(u[8..10]) + "-" + HexText(u[10..])
  }

  /** Reads the 36-character form; the digits may be of either case. */
  function ParseText(s: string): Option<Uuid> {
    if |s| == 36 && s[8] == s[13] == s[18] == s[23] == '-' then
      match (ParseHex(s[..8]), ParseHex(s[9..13]), ParseHex(s[14..18]), ParseHex(s[19..23]), ParseHex(s[24..]))
      case (Some(a), Some(b), Some(c), Some(d), Some(e)) => Some(a + b + c + d + e)
      case _ => None
    else None
  }

  lemma Pieces(t: string, a: string, b: string, c: string, d: string, e: string)
    requires |t| == 36 && |a| == 8 && |b| == |c| == |d| == 4 && |e| == 12
    ensures t == a + "-" + b + "-" + c + "-" + d + "-" + e <==>
            && t[..8] == a && t[9..13] == b && t[14..18] == c && t[19..23] == d && t[24..] == e
            && t[8] == t[13] == t[18] == t[23] == '-'
  {
    var whole := a + "-" + b + "-" + c + "-" + d + "-" + e;
    assert whole[..8] == a && whole[9..13] == b && whole[14..18] == c && whole[19..23] == d && whole[24..] == e;
    assert whole[8] == whole[13] == whole[18] == whole[23] == '-';
    assert t == t[..8] + [t[8]] + t[9..13] + [t[13]] + t[14..18] + [t[18]] + t[19..23] + [t[23]] + t[24..];
  }

  lemma LowerPieces(s: string)
    requires |s| == 36
    ensures
      var t := LowerText(s);
      && t[..8] == LowerText(s[..8]) && t[9..13] == LowerText(s[9..13]) && t[14..18] == LowerText(s[14..18])
      && t[19..23] == LowerText(s[19..23]) && t[24..] == LowerText(s[24..])
      && (t[8] == t[13] == t[18] == t[23] == '-' <==> s[8] == s[13] == s[18] == s[23] == '-')
  {
    var t := LowerText(s);
    assert t[..8] == LowerText(s[..8]);
    assert t[9..13] == LowerText(s[9..13]);
    assert t[14..18] == LowerText(s[14..18]);
    assert t[19..23] == LowerText(s[19..23]);
    assert t[24..] == LowerText(s[24..]);
  }

  lemma Groups(u: Uuid, a: Bytes, b: Bytes, c: Bytes, d: Bytes, e: Bytes)
    requires |a| == 4 && |b| == |c| == |d| == 2 && |e| == 6
    ensures u == a + b + c + d + e <==> u[..4] == a && u[4..6] == b && u[6..8] == c && u[8..10] == d && u[10..] == e
  {
    var whole := a + b + c + d + e;
    assert whole[..4] == a && whole[4..6] == b && whole[6..8] == c && whole[8..10] == d && whole[10..] == e;
    assert u == u[..4] + u[4..6] + u[6..8] + u[8..10] + u[10..];
  }

  lemma {:induction false} HexLayout(b: Bytes, i: nat)
    requires i < |b|
    ensures HexText(b)[2 * i] == "0123456789abcdef"[b[i] / 16]
    ensures HexText(b)[2 * i + 1] == "0123456789abcdef"[b[i] % 16]
  {
    var h := HexText(b);
    assert h == [h[0], h[1]] + HexText(b[1..]);
    if i > 0 {
      HexLayout(b[1..], i - 1);
    }
  }

  /** Where byte i stands in the text: four dashes come in between. */
  function Place(i: nat): nat {
    2 * i + (if i < 4 then 0 else if i < 6 then 1 else if i < 8 then 2 else if i < 10 then 3 else 4)
  }

  /** The layout of section 4 of RFC 9562: every byte as two digits, the high one first, in order, with dashes after the
      fourth, sixth, eighth and tenth byte. */
  lemma PrintLayout(u: Uuid, i: nat)
    requires i < 16
    ensures Print(u)[Place(i)] == "0123456789abcdef"[u[i] / 16]
    ensures Print(u)[Place(i) + 1] == "0123456789abcdef"[u[i] % 16]
    ensures Print(u)[8] == Print(u)[13] == Print(u)[18] == Print(u)[23] == '-'
  {
    var s := Print(u);
    Pieces(s, HexText(u[..4]), HexText(u[4..6]), HexText(u[6..8]), HexText(u[8..10]), HexText(u[10..]));
    if i < 4 {
      HexLayout(u[..4], i);
      assert s[..8][2 * i] == s[Place(i)] && s[..8][2 * i + 1] == s[Place(i) + 1];
    } else if i < 6 {
      HexLayout(u[4..6], i - 4);
      assert s[9..13][2 * (i - 4)] == s[Place(i)] && s[9..13][2 * (i - 4) + 1] == s[Place(i) + 1];
    } else if i < 8 {
      HexLayout(u[6..8], i - 6);
      assert s[14..18][2 * (i - 6)] == s[Place(i)] && s[14..18][2 * (i - 6) + 1] == s[Place(i) + 1];
    } else if i < 10 {
      HexLayout(u[8..10], i - 8);
      assert s[19..23][2 * (i - 8)] == s[Place(i)] && s[19..23][2 * (i - 8) + 1] == s[Place(i) + 1];
    } else {
      HexLayout(u[10..], i - 10);
      assert s[24..][2 * (i - 10)] == s[Place(i)] && s[24..][2 * (i - 10) + 1] == s[Place(i) + 1];
    }
  }

  /** The nil UUID is the one of zeros, in bytes and in text. */
  lemma NilIsZeros(i: nat)
    requires i < 16
    ensures NIL[i] == 0 && Print(NIL)[Place(i)] == Print(NIL)[Place(i) + 1] == '0'
  {
    PrintLayout(NIL, i);
  }

  /** A text reads as u exactly when it is u's text up to the case of its digits. */
  lemma TextReads(s: string, u: Uuid)
    ensures ParseText(s) == Some(u) <==> LowerText(s) == Print(u)
  {
    if |s| == 36 {
      Pieces(LowerText(s), HexText(u[..4]), HexText(u[4..6]), HexText(u[6..8]), HexText(u[8..10]), HexText(u[10..]));
      LowerPieces(s);
      HexReads(s[..8], u[..4]);
      HexReads(s[9..13], u[4..6]);
      HexReads(s[14..18], u[6..8]);
      HexReads(s[19..23], u[8..10]);
      HexReads(s[24..], u[10..]);
      match (ParseHex(s[..8]), ParseHex(s[9..13]), ParseHex(s[14..18]), ParseHex(s[19..23]), ParseHex(s[24..]))
      case (Some(a), Some(b), Some(c), Some(d), Some(e)) => Groups(u, a, b, c, d, e);
      case _ =>
    }
  }

  lemma {:induction false} HexIsLower(b: Bytes)
    ensures LowerText(HexText(b)) == HexText(b)
  {
    if b != [] {
      HexIsLower(b[1..]);
      var h := HexText(b);
      assert h == [h[0], h[1]] + HexText(b[1..]);
      assert LowerText(h) == [Lower(h[0]), Lower(h[1])] + LowerText(HexText(b[1..]));
    }
  }

  lemma ParseOfPrint(u: Uuid)
    ensures ParseText(Print(u)) == Some(u)
  {
    HexIsLower(u[..4]);
    HexIsLower(u[4..6]);
    HexIsLower(u[6..8]);
    HexIsLower(u[8..10]);
    HexIsLower(u[10..]);
    LowerPieces(Print(u));
    var s := Print(u);
    Pieces(s, HexText(u[..4]), HexText(u[4..6]), HexText(u[6..8]), HexText(u[8..10]), HexText(u[10..]));
    Pieces(LowerText(s), HexText(u[..4]), HexText(u[4..6]), HexText(u[6..8]), HexText(u[8..10]), HexText(u[10..]));
    TextReads(s, u);
  }

  /** The UUID library reads further spellings too, which are not fixed here: otherForms stands for whatever it
      makes of a text that is not in the 36-character form. */
  datatype Library = Library(otherForms: string -> Option<Uuid>) {
    function Parse(s: string): Option<Uuid> {
      match ParseText(s)
      case Some(u) => Some(u)
      case None => otherForms(s)
    }
  }

  /** The library reads the 36-character form as it is meant, whatever else it reads. */
  lemma LibraryReads(lib: Library, s: string, u: Uuid)
    requires LowerText(s) == Print(u)
    ensures lib.Parse(s) == Some(u)
  {
    TextReads(s, u);
  }
}
