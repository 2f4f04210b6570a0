/** Numbers as headers and chunk sizes write them: what is written is what is read. */
module HttpNumbers {
  import opened Common
  import opened HttpLines
  import opened HttpFraming

  // ---------------------------------------------------------------- hexadecimal

  /** The digit for `d`, in either case. */
  function HexChar(d: nat, upper: bool): Byte
    requires d < 16
  {
    "0123456789ABCDEF0123456789abcdef"[if upper then d else d + 16] as int
  }

  lemma HexCharReads(d: nat, upper: bool)
    requires d < 16
    ensures IsHex(HexChar(d, upper)) && HexDigit(HexChar(d, upper)) == d
  {
  }

  function HexText(n: nat, upper: bool): seq<Byte> {
    (if n < 16 then [] else HexText(n / 16, upper)) + [HexChar(n % 16, upper)]
  }

  lemma {:induction false} HexTextIsHex(n: nat, upper: bool)
    ensures forall i :: 0 <= i < |HexText(n, upper)| ==> IsHex(HexText(n, upper)[i])
  {
    HexCharReads(n % 16, upper);
    if n >= 16 {
      HexTextIsHex(n / 16, upper);
    }
  }

  lemma {:induction false} ValueOfLast(acc: nat, ds: seq<Byte>, d: Byte)
    requires IsHex(d) && forall i :: 0 <= i < |ds| ==> IsHex(ds[i])
    ensures ValueAfter(acc, ds + [d]) == ValueAfter(acc, ds) * 16 + HexDigit(d)
    decreases |ds|
  {
    if ds == [] {
      assert ds + [d] == [d];
      assert ValueAfter(acc * 16 + HexDigit(d), [d][1..]) == acc * 16 + HexDigit(d);
    } else {
      assert (ds + [d])[1..] == ds[1..] + [d];
      ValueOfLast(acc * 16 + HexDigit(ds[0]), ds[1..], d);
    }
  }

  /** A number written in hexadecimal, in either case, is read back. */
  lemma {:induction false} HexRoundTrip(n: nat, upper: bool)
    ensures forall i :: 0 <= i < |HexText(n, upper)| ==> IsHex(HexText(n, upper)[i])
    ensures ValueAfter(0, HexText(n, upper)) == n
  {
    HexTextIsHex(n, upper);
    HexCharReads(n % 16, upper);
    if n < 16 {
      ValueOfLast(0, [], HexChar(n % 16, upper));
      assert [] + [HexChar(n % 16, upper)] == HexText(n, upper);
    } else {
      HexTextIsHex(n / 16, upper);
      HexRoundTrip(n / 16, upper);
      ValueOfLast(0, HexText(n / 16, upper), HexChar(n % 16, upper));
    }
  }

  /** So data with its length in front is a chunk. */
  lemma WrittenChunk(data: seq<Byte>, ext: seq<Byte>, upper: bool)
    requires 0 < |data| < TWO64 - 2 && (forall i :: 0 <= i < |ext| ==> ext[i] != LF) && (ext != [] ==> !IsHex(ext[0]))
    ensures Proper(Chunk(HexText(|data|, upper), ext, data))
  {
    HexRoundTrip(|data|, upper);
  }

  // ---------------------------------------------------------------- decimal

  function DecText(n: nat): seq<Byte> {
    (if n < 10 then [] else DecText(n / 10)) + ["0123456789"[n % 10] as int]
  }

  function Digit(d: Byte): nat
    requires IsDigit(d)
  {
    d - 48
  }

  /** The digits as a number, appended to `acc`. */
  function Appended(acc: nat, ds: seq<Byte>): nat
    requires forall i :: 0 <= i < |ds| ==> IsDigit(ds[i])
    decreases |ds|
  {
    if ds == [] then acc else Appended(acc * 10 + Digit(ds[0]), ds[1..])
  }

  lemma {:induction false} DecTextIsDigits(n: nat)
    ensures DecText(n) != [] && forall i :: 0 <= i < |DecText(n)| ==> IsDigit(DecText(n)[i])
  {
    if n >= 10 {
      DecTextIsDigits(n / 10);
    }
  }

  lemma {:induction false} AppendedLast(acc: nat, ds: seq<Byte>, d: Byte)
    requires IsDigit(d) && forall i :: 0 <= i < |ds| ==> IsDigit(ds[i])
    ensures Appended(acc, ds + [d]) == Appended(acc, ds) * 10 + Digit(d)
    decreases |ds|
  {
    if ds == [] {
      assert ds + [d] == [d];
      assert Appended(acc * 10 + Digit(d), [d][1..]) == acc * 10 + Digit(d);
    } else {
      assert (ds + [d])[1..] == ds[1..] + [d];
      AppendedLast(acc * 10 + Digit(ds[0]), ds[1..], d);
    }
  }

  lemma {:induction false} DecRoundTrip(n: nat)
    ensures forall i :: 0 <= i < |DecText(n)| ==> IsDigit(DecText(n)[i])
    ensures Appended(0, DecText(n)) == n
  {
    DecTextIsDigits(n);
    var d: Byte := "0123456789"[n % 10] as int;
    assert d == 48 + n % 10;
    if n < 10 {
      AppendedLast(0, [], d);
      assert [] + [d] == DecText(n);
    } else {
      DecTextIsDigits(n / 10);
      DecRoundTrip(n / 10);
      AppendedLast(0, DecText(n / 10), d);
    }
  }

  lemma {:induction false} DecimalReads(buf: seq<Byte>, p: nat, ds: seq<Byte>, acc: nat)
    requires Holds(buf, p, ds) && (forall i :: 0 <= i < |ds| ==> IsDigit(ds[i]))
    requires p + |ds| < |buf| ==> !IsDigit(buf[p + |ds|])
    ensures Decimal(buf, p, acc) == Appended(acc, ds)
    decreases |ds|
  {
    if ds != [] {
      HoldsAt(buf, p, ds, 0);
      assert [ds[0]] + ds[1..] == ds;
      HoldsParts(buf, p, [ds[0]], ds[1..]);
      DecimalReads(buf, p + 1, ds[1..], acc * 10 + Digit(ds[0]));
    }
  }

  /** A length written in decimal, with anything but a digit behind it, is read back; past 2^63 - 1
      it is read as that. */
  lemma LengthRoundTrip(buf: seq<Byte>, p: nat, n: nat)
    requires Holds(buf, p, DecText(n)) && (p + |DecText(n)| < |buf| ==> !IsDigit(buf[p + |DecText(n)|]))
    ensures Length(buf, p) == Min(n, 0x7FFF_FFFF_FFFF_FFFF)
  {
    DecRoundTrip(n);
    DecTextIsDigits(n);
    HoldsAt(buf, p, DecText(n), 0);
    DecimalReads(buf, p, DecText(n), 0);
  }
}
