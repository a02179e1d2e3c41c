// The printed card number and the eight-byte IDi it stands for, in both directions,
// and the clean-up of recognized text. What upper-casing does to each character outside
// ASCII is a parameter.
module CardNumber {
  import opened Bits
  import opened Results

  // ---------------------------------------------------------------- digits

  type Base = b: nat | b == 10 || b == 16 witness 10

  function Power(base: Base, e: nat): nat {
    if e == 0 then 1 else base * Power(base, e - 1)
  }

  function DigitValue(c: char): (v: int)
    ensures v < 16
  {
    if '0' <= c <= '9' then c as int - '0' as int
    else if 'A' <= c <= 'F' then c as int - 'A' as int + 10
    else -1
  }

  predicate IsDigit(c: char, base: Base) {
    0 <= DigitValue(c) < base
  }

  predicate AllDigits(s: string, base: Base) {
    forall i :: 0 <= i < |s| ==> IsDigit(s[i], base)
  }

  function Digit(v: int): (c: char)
    requires 0 <= v < 16
    ensures DigitValue(c) == v
  {
    if v < 10 then ('0' as int + v) as char else ('A' as int + v - 10) as char
  }

  /** Exactly w digits. */
  function Digits(n: nat, base: Base, w: nat): (s: string)
    ensures |s| == w && AllDigits(s, base)
  {
    if w == 0 then "" else Digits(n / base, base, w - 1) + [Digit(n % base)]
  }

  function ParseInt(s: string, base: Base): (n: nat)
    requires AllDigits(s, base)
  {
    if s == "" then 0 else ParseInt(s[..|s| - 1], base) * base + DigitValue(s[|s| - 1])
  }

  lemma QuotientInRange(n: nat, p: nat, base: Base)
    requires n < base * p
    ensures n / base < p && n / base * base + n % base == n
  {
    if base == 10 { assert n / 10 < p; } else { assert n / 16 < p; }
  }

  lemma AppendDigit(q: nat, d: nat, base: Base, p: nat)
    requires q < p && d < base
    ensures (q * base + d) / base == q && (q * base + d) % base == d && q * base + d < base * p
  {
    if base == 10 { assert (q * 10 + d) / 10 == q; } else { assert (q * 16 + d) / 16 == q; }
  }

  lemma {:induction false} ParseOfDigits(n: nat, base: Base, w: nat)
    requires n < Power(base, w)
    ensures ParseInt(Digits(n, base, w), base) == n
  {
    if w > 0 {
      QuotientInRange(n, Power(base, w - 1), base);
      ParseOfDigits(n / base, base, w - 1);
      assert Digits(n, base, w)[..w - 1] == Digits(n / base, base, w - 1);
    }
  }

  lemma DigitsSnoc(q: nat, c: char, base: Base, w: nat)
    requires IsDigit(c, base)
    ensures Digits(q * base + DigitValue(c), base, w + 1) == Digits(q, base, w) + [c]
  {
    AppendDigit(q, DigitValue(c), base, q + 1);
  }

  lemma {:induction false} DigitsOfParse(s: string, base: Base)
    requires AllDigits(s, base)
    ensures ParseInt(s, base) < Power(base, |s|)
    ensures Digits(ParseInt(s, base), base, |s|) == s
  {
    hide Digits, DigitValue, ParseInt, Power;
    if s == "" {
      NoDigits(base);
    } else {
      var init, c := s[..|s| - 1], s[|s| - 1];
      DigitsOfParse(init, base);
      ParseSnoc(s, base);
      AppendDigit(ParseInt(init, base), DigitValue(c), base, Power(base, |init|));
      DigitsSnoc(ParseInt(init, base), c, base, |init|);
      assert s == init + [c];
    }
  }

  lemma NoDigits(base: Base)
    ensures ParseInt("", base) == 0 && Digits(0, base, 0) == "" && Power(base, 0) == 1
  {
  }

  lemma ParseSnoc(s: string, base: Base)
    requires s != "" && AllDigits(s, base)
    ensures ParseInt(s, base) == ParseInt(s[..|s| - 1], base) * base + DigitValue(s[|s| - 1])
    ensures Power(base, |s|) == base * Power(base, |s| - 1)
  {
    hide DigitValue;
  }

  /** A number without leading zeros. */
  function ToText(n: nat, base: Base): (s: string)
    ensures s != ""
  {
    if n < base then [Digit(n)] else ToText(n / base, base) + [Digit(n % base)]
  }

  function PadStart(s: string, w: nat): string
    decreases w - |s|
  {
    if |s| >= w then s else PadStart("0" + s, w)
  }

  function Padded(n: nat, base: Base, w: nat): string {
    PadStart(ToText(n, base), w)
  }

  lemma {:induction false} PadAppend(s: string, c: char, w: nat)
    requires w > 0
    ensures PadStart(s + [c], w) == PadStart(s, w - 1) + [c]
    decreases w - |s|
  {
    if |s| < w - 1 {
      PadAppend("0" + s, c, w);
      assert "0" + (s + [c]) == "0" + s + [c];
    }
  }

  /** A number that fits is printed with exactly the asked-for width. */
  lemma {:induction false} PaddedIsDigits(n: nat, base: Base, w: nat)
    requires 0 < w && n < Power(base, w)
    ensures Padded(n, base, w) == Digits(n, base, w)
  {
    QuotientInRange(n, Power(base, w - 1), base);
    if w == 1 {
      assert n < base by { assert Power(base, 1) == base; }
      assert Digits(n, base, 1) == Digits(n / base, base, 0) + [Digit(n % base)];
    } else {
      PaddedIsDigits(n / base, base, w - 1);
      if n < base {
        assert ToText(n, base) == "" + [Digit(n)];
        PadAppend("", Digit(n), w);
        assert "0" + "" == "0" == ToText(n / base, base);
      } else {
        PadAppend(ToText(n / base, base), Digit(n % base), w);
      }
    }
  }

  // ---------------------------------------------------------------- issuers

  /** The two-letter prefix of a known issuer, "" for an unknown one. */
  function Prefix(issuer: nat): (p: string)
    ensures |p| == 0 || |p| == 2
  {
    match issuer
    case 0x0102 => "JH"
    case 0x0103 => "JE"
    case 0x0104 => "JC"
    case 0x0105 => "JW"
    case 0x0107 => "JK"
    case 0x0252 => "PB"
    case 0x0387 => "TP"
    case 0x04ad => "SU"
    case 0x05d5 => "NR"
    case 0x05d7 => "FC"
    case _ => ""
  }

  /** The reverse lookup. */
  function IssuerOf(prefix: string): (issuer: Option<nat>)
    ensures issuer.Some? ==> issuer.value < 0x600
  {
    if prefix == "JH" then Some(0x0102)
    else if prefix == "JE" then Some(0x0103)
    else if prefix == "JC" then Some(0x0104)
    else if prefix == "JW" then Some(0x0105)
    else if prefix == "JK" then Some(0x0107)
    else if prefix == "PB" then Some(0x0252)
    else if prefix == "TP" then Some(0x0387)
    else if prefix == "SU" then Some(0x04ad)
    else if prefix == "NR" then Some(0x05d5)
    else if prefix == "FC" then Some(0x05d7)
    else None
  }

  lemma PrefixTablesAgree(issuer: nat, prefix: string)
    requires prefix != ""
    ensures IssuerOf(prefix) == Some(issuer) <==> Prefix(issuer) == prefix
  {
  }

  // ---------------------------------------------------------------- printing

  function Be16(high: Byte, low: Byte): (v: nat)
    ensures v < 0x1_0000
  {
    var h: int, l: int := high, low;
    256 * h + l
  }

  function Head(issuer: nat): string {
    if Prefix(issuer) != "" then Prefix(issuer) else Padded(issuer, 16, 4)
  }

  function Year(v: nat): (y: nat)
    ensures y < 64
  {
    v / 512 % 64
  }

  function Month(v: nat): (m: nat)
    ensures m < 16
  {
    v / 32 % 16
  }

  function Day(v: nat): (d: nat)
    ensures d < 32
  {
    v % 32
  }

  function Date(v: nat): string {
    Padded(Year(v) % 100, 10, 2) + Padded(Month(v), 10, 2) + Padded(Day(v), 10, 2)
  }

  /** Fifteen bits hold the year, month and day that are printed. */
  lemma DateFields(v: nat)
    ensures v % 0x8000 == Year(v) * 512 + Month(v) * 32 + Day(v)
  {
    var q := v / 32;
    assert q / 16 == v / 512 by { DivisionIs(v, 512, q / 16, 32 * (q % 16) + v % 32); }
    assert v == v / 512 * 512 + (q % 16 * 32 + v % 32);
    assert v == v / 512 / 64 * 0x8000 + (v / 512 % 64 * 512 + q % 16 * 32 + v % 32);
    DivisionIs(v, 0x8000, v / 512 / 64, v / 512 % 64 * 512 + q % 16 * 32 + v % 32);
  }

  lemma PackedDate(yy: nat, month: nat, day: nat)
    requires month < 16 && day < 32
    ensures var v := yy * 512 + month * 32 + day; Month(v) == month && Day(v) == day && Year(v) == yy % 64
  {
    var v := yy * 512 + month * 32 + day;
    DivisionIs(v, 32, yy * 16 + month, day);
    DivisionIs(v, 512, yy, month * 32 + day);
    DivisionIs(yy * 16 + month, 16, yy, month);
  }

  /** Extra id, date and serial number. */
  function Body(b: Block): string {
    Padded(b[2], 16, 2) + Padded(b[3], 16, 2) + Date(Be16(b[4], b[5])) + Padded(Be16(b[6], b[7]), 10, 5)
  }

  /** Eight IDi bytes to the printed number. */
  function Print(b: Block): string {
    Head(Be16(b[0], b[1])) + Body(b)
  }

  // ---------------------------------------------------------------- parsing

  function High(v: nat): (b: Byte) { v / 256 % 256 }
  function Low(v: nat): (b: Byte) { v % 256 }

  function Pack(issuer: nat, extra: nat, v: nat, tail: nat): Block {
    [High(issuer), Low(issuer), High(extra), Low(extra), High(v), Low(v), High(tail), Low(tail)]
  }

  /** The issuer and what follows it. */
  function ParseHead(s: string): Option<(nat, string)> {
    var two := if |s| < 2 then s else s[..2];
    if IssuerOf(two).Some? then Some((IssuerOf(two).value, s[|two|..]))
    else if |s| >= 4 && AllDigits(s[..4], 16) then Some((ParseInt(s[..4], 16), s[4..]))
    else None
  }

  /** Extra id, packed date and serial number of the fifteen characters after the head. */
  function ParseBody(rest: string): Option<(nat, nat, nat)> {
    if |rest| != 15 then None
    else if !AllDigits(rest[..4], 16) || !AllDigits(rest[4..10], 10) || !AllDigits(rest[10..15], 10) then None
    else
      var date := rest[4..10];
      var yy, month, day := ParseInt(date[..2], 10), ParseInt(date[2..4], 10), ParseInt(date[4..6], 10);
      if month > 15 || day > 31 then None
      else
        var v, tail := yy * 512 + month * 32 + day, ParseInt(rest[10..15], 10);
        if v > 0xffff || tail > 0xffff then None
        else Some((ParseInt(rest[..4], 16), v, tail))
  }

  /** Two decimal digits of year keep the packed date in sixteen bits: its range check never rejects anything. */
  lemma DateNeverOverflows(date: string)
    requires |date| == 6 && AllDigits(date, 10) && ParseInt(date[2..4], 10) <= 15 && ParseInt(date[4..6], 10) <= 31
    ensures ParseInt(date[..2], 10) * 512 + ParseInt(date[2..4], 10) * 32 + ParseInt(date[4..6], 10) <= 0xffff
  {
    Widths();
    DigitsOfParse(date[..2], 10);
  }

  /** A printed number, already normalized, to the IDi bytes. */
  function Parse(s: string): Option<Block> {
    match ParseHead(s)
    case None => None
    case Some((issuer, rest)) =>
      match ParseBody(rest)
      case None => None
      case Some((extra, v, tail)) =>
        Some(Pack(issuer, extra, v, tail))
  }

  /** Converts back to exactly the number given. */
  predicate Convertible(s: string) {
    Parse(s).Some? && Print(Parse(s).value) == s
  }

  // ---------------------------------------------------------------- the round trip

  /** The IDis whose printed number loses nothing: the date fits and the head is not read as "FC". */
  predicate Lossless(b: Block) {
    b[4] < 128 && b[0] != 0xFC
  }

  lemma Widths()
    ensures Power(16, 2) == 0x100 && Power(16, 4) == 0x1_0000 && Power(10, 2) == 100 && Power(10, 5) == 100000
  {
    assert Power(16, 2) == 16 * Power(16, 1) && Power(16, 1) == 16 * Power(16, 0);
    assert Power(16, 4) == 16 * (16 * Power(16, 2));
    assert Power(10, 2) == 10 * Power(10, 1) && Power(10, 1) == 10 * Power(10, 0);
    assert Power(10, 5) == 10 * (10 * (10 * Power(10, 2)));
  }

  lemma PrintedHead(b: Block)
    ensures Prefix(Be16(b[0], b[1])) == "" ==> Head(Be16(b[0], b[1])) == Digits(Be16(b[0], b[1]), 16, 4)
  {
    Widths();
    hide Power;
    PaddedIsDigits(Be16(b[0], b[1]), 16, 4);
  }

  /** Where the fields of a fifteen-character body are. */
  lemma Fields(extra: string, yy: string, month: string, day: string, tail: string)
    requires |extra| == 4 && |yy| == |month| == |day| == 2 && |tail| == 5
    ensures var body := extra + (yy + month + day) + tail;
      && |body| == 15 && body[..4] == extra && body[4..10] == yy + month + day && body[10..15] == tail
      && body[4..10][..2] == yy && body[4..10][2..4] == month && body[4..10][4..6] == day
  {
    assert (yy + month + day)[..2] == yy;
    assert (yy + month + day)[2..4] == month;
  }

  lemma DateIsDigits(v: nat)
    ensures Date(v) == Digits(Year(v), 10, 2) + Digits(Month(v), 10, 2) + Digits(Day(v), 10, 2)
  {
    Widths();
    hide Power, Digits, Padded;
    PaddedIsDigits(Year(v), 10, 2);
    PaddedIsDigits(Month(v), 10, 2);
    PaddedIsDigits(Day(v), 10, 2);
  }

  lemma BodyIsDigits(b: Block)
    ensures Body(b) == Digits(Be16(b[2], b[3]), 16, 4)
                     + (Digits(Year(Be16(b[4], b[5])), 10, 2) + Digits(Month(Be16(b[4], b[5])), 10, 2)
                        + Digits(Day(Be16(b[4], b[5])), 10, 2))
                     + Digits(Be16(b[6], b[7]), 10, 5)
  {
    Widths();
    TwoBytes(b[2], b[3]);
    hide Power, Digits, Padded, Date, DigitValue, Be16;
    DateIsDigits(Be16(b[4], b[5]));
    PaddedIsDigits(b[2], 16, 2);
    PaddedIsDigits(b[3], 16, 2);
    PaddedIsDigits(Be16(b[6], b[7]), 10, 5);
  }

  /** The fifteen characters of the body, field by field. */
  lemma PrintedBody(b: Block)
    ensures |Body(b)| == 15
    ensures Body(b)[..4] == Digits(Be16(b[2], b[3]), 16, 4)
    ensures Body(b)[4..10][..2] == Digits(Year(Be16(b[4], b[5])), 10, 2)
    ensures Body(b)[4..10][2..4] == Digits(Month(Be16(b[4], b[5])), 10, 2)
    ensures Body(b)[4..10][4..6] == Digits(Day(Be16(b[4], b[5])), 10, 2)
    ensures Body(b)[10..15] == Digits(Be16(b[6], b[7]), 10, 5)
    ensures AllDigits(Body(b)[4..10], 10)
  {
    BodyIsDigits(b);
    hide Digits, Body, DigitValue;
    var v := Be16(b[4], b[5]);
    Fields(Digits(Be16(b[2], b[3]), 16, 4), Digits(Year(v), 10, 2), Digits(Month(v), 10, 2), Digits(Day(v), 10, 2),
           Digits(Be16(b[6], b[7]), 10, 5));
  }

  lemma LastTwoDigits(n: nat, w: nat)
    ensures Digits(n, 16, w + 2) == Digits(n / 16 / 16, 16, w) + [Digit(n / 16 % 16), Digit(n % 16)]
  {
    hide Digit;
    assert Digits(n, 16, w + 2) == Digits(n / 16, 16, w + 1) + [Digit(n % 16)];
    assert Digits(n / 16, 16, w + 1) == Digits(n / 16 / 16, 16, w) + [Digit(n / 16 % 16)];
  }

  lemma LowNibbles(high: nat, low: nat)
    requires low < 256
    ensures var n := 256 * high + low;
            n / 16 / 16 == high && n % 16 == low % 16 && n / 16 % 16 == low / 16 % 16
  {
  }

  lemma TwoBytes(high: Byte, low: Byte)
    ensures Digits(Be16(high, low), 16, 4) == Digits(high, 16, 2) + Digits(low, 16, 2)
  {
    LowNibbles(high, low);
    hide Digits, Digit;
    LastTwoDigits(Be16(high, low), 2);
    LastTwoDigits(low, 0);
  }

  /** Parsing a printed body gives every field back, the date without its top bit. */
  lemma ParsePrintedBody(b: Block)
    ensures |Body(b)| == 15
    ensures ParseBody(Body(b)) == Some((Be16(b[2], b[3]), Be16(b[4], b[5]) % 0x8000, Be16(b[6], b[7])))
  {
    Widths();
    PrintedBody(b);
    hide Power, Digits, Body, ParseInt, DigitValue, Be16, Year, Month, Day;
    var v := Be16(b[4], b[5]);
    ParseOfDigits(Be16(b[2], b[3]), 16, 4);
    ParseOfDigits(Year(v), 10, 2);
    ParseOfDigits(Month(v), 10, 2);
    ParseOfDigits(Day(v), 10, 2);
    ParseOfDigits(Be16(b[6], b[7]), 10, 5);
    DateFields(v);
  }

  /** Two fields of the same digits are the same number. */
  lemma SameDigits(n: nat, m: nat, base: Base, w: nat)
    requires n < Power(base, w) && m < Power(base, w)
    requires Digits(n, base, w) == Digits(m, base, w)
    ensures n == m
  {
    ParseOfDigits(n, base, w);
    ParseOfDigits(m, base, w);
  }

  /** A parsed body prints back as itself exactly when the year needs only six bits. */
  lemma PrintParsedBody(rest: string, b: Block)
    requires ParseBody(rest).Some?
    requires var (extra, v, tail) := ParseBody(rest).value;
             Be16(b[2], b[3]) == extra && Be16(b[4], b[5]) == v && Be16(b[6], b[7]) == tail
    ensures Body(b) == rest <==> b[4] < 128
  {
    Widths();
    BodyIsDigits(b);
    hide Power, Digits, Body, ParseInt, DigitValue, Year, Month, Day;
    var date := rest[4..10];
    var yy, month, day := ParseInt(date[..2], 10), ParseInt(date[2..4], 10), ParseInt(date[4..6], 10);
    var v := Be16(b[4], b[5]);
    DigitsOfParse(rest[..4], 16);
    DigitsOfParse(date[..2], 10);
    DigitsOfParse(date[2..4], 10);
    DigitsOfParse(date[4..6], 10);
    DigitsOfParse(rest[10..15], 10);
    PackedDate(yy, month, day);
    assert rest == rest[..4] + (date[..2] + date[2..4] + date[4..6]) + rest[10..15];
    if yy >= 64 && Body(b) == rest {
      PrintedBody(b);
      SameDigits(yy, Year(v), 10, 2);
    }
  }

  // ---------------------------------------------------------------- heads

  /** A printed head is read back, unless it is four hex digits that begin with the letters "FC". */
  lemma ParsePrintedHead(b: Block, rest: string)
    requires |rest| == 15
    ensures b[0] != 0xFC ==> ParseHead(Head(Be16(b[0], b[1])) + rest) == Some((Be16(b[0], b[1]), rest))
    ensures b[0] == 0xFC ==> ParseHead(Head(Be16(b[0], b[1])) + rest).Some?
    ensures b[0] == 0xFC ==> |ParseHead(Head(Be16(b[0], b[1])) + rest).value.1| == 17
  {
    var issuer := Be16(b[0], b[1]);
    var s := Head(issuer) + rest;
    if Prefix(issuer) != "" {
      PrefixTablesAgree(issuer, Prefix(issuer));
      assert s[..2] == Prefix(issuer) && s[2..] == rest;
    } else {
      PrintedHead(b);
      Widths();
      ParseOfDigits(issuer, 16, 4);
      assert s[..4] == Digits(issuer, 16, 4) && s[4..] == rest;
      HexHead(b, s);
    }
  }

  /** "FC" is the only known prefix made of hex digits. */
  lemma HexPrefix(p: string)
    requires |p| == 2 && AllDigits(p, 16)
    ensures IssuerOf(p) == if p == "FC" then Some(0x05d7) else None
  {
    assert DigitValue(p[0]) >= 0 && DigitValue(p[1]) >= 0;
  }

  lemma HexHead(b: Block, s: string)
    requires |s| >= 4 && s[..4] == Digits(Be16(b[0], b[1]), 16, 4)
    ensures IssuerOf(s[..2]) == if b[0] == 0xFC then Some(0x05d7) else None
  {
    TwoBytes(b[0], b[1]);
    Widths();
    ParseOfDigits(b[0], 16, 2);
    ParseOfDigits(0xFC, 16, 2);
    assert Digits(0xFC, 16, 2) == "FC" by {
      assert Digits(0xFC, 16, 2) == Digits(15, 16, 1) + ['C'] && Digits(15, 16, 1) == Digits(0, 16, 0) + ['F'];
    }
    hide Digits, IssuerOf, DigitValue, Be16, ParseInt, Power;
    assert s[..2] == Digits(b[0], 16, 2) by { assert s[..4][..2] == s[..2]; }
    HexPrefix(s[..2]);
  }

  // ---------------------------------------------------------------- main results

  /** Parsing what is printed gives the IDi back exactly for the lossless ones. */
  lemma ParseOfPrint(b: Block)
    ensures Parse(Print(b)) == Some(b) <==> Lossless(b)
  {
    hide Body, Head, Digits, ParseBody, ParseHead, Pack, Be16;
    ParsePrintedBody(b);
    ParsePrintedHead(b, Body(b));
    if b[0] == 0xFC {
      WrongLength(ParseHead(Print(b)).value.1);
    } else {
      Reassembled(b);
      assert b[4] < 128 ==> b[4 := b[4] % 128] == b;
    }
  }

  /** Two IDis that do not come back: a head read as the prefix "FC", and a date with its top bit set. */
  lemma LostIdis()
    ensures Parse(Print([0xFC, 0, 0, 0, 0, 0, 0, 0])) == None
    ensures Parse(Print([1, 3, 0, 0, 0x80, 0, 0, 0])) == Some([1, 3, 0, 0, 0, 0, 0, 0])
  {
    hide Body, Head, Digits, ParseBody, ParseHead;
    var a: Block, b: Block := [0xFC, 0, 0, 0, 0, 0, 0, 0], [1, 3, 0, 0, 0x80, 0, 0, 0];
    ParsePrintedBody(a);
    ParsePrintedHead(a, Body(a));
    WrongLength(ParseHead(Print(a)).value.1);
    ParsePrintedBody(b);
    ParsePrintedHead(b, Body(b));
    Reassembled(b);
  }

  /** Seventeen characters for a known issuer, nineteen for any other. */
  lemma PrintedLength(b: Block)
    ensures |Print(b)| == if Prefix(Be16(b[0], b[1])) == "" then 19 else 17
  {
    PrintedHead(b);
    hide Body, Digits, Prefix;
    ParsePrintedBody(b);
  }

  lemma DigitIs(v: int)
    requires 0 <= v < 16
    ensures Digit(v) == "0123456789ABCDEF"[v]
  {
    if v == 0 || v == 1 || v == 2 || v == 3 || v == 4 {}
    else if v == 5 || v == 6 || v == 7 || v == 8 || v == 9 {}
    else if v == 10 || v == 11 || v == 12 || v == 13 {}
    else if v == 14 {}
  }

  lemma OneDigit(n: nat, base: Base)
    requires n < base
    ensures Digits(n, base, 1) == [Digit(n)]
  {
    SmallQuotient(n, base);
    assert Digits(n, base, 1) == Digits(n / base, base, 0) + [Digit(n % base)];
  }

  lemma SmallQuotient(n: nat, base: Base)
    requires n < base
    ensures n % base == n
  {
  }

  lemma TwoDigits(n: nat, base: Base)
    requires n < base * base
    ensures Digits(n, base, 2) == [Digit(n / base), Digit(n % base)]
  {
    QuotientInRange(n, base, base);
    hide Digit;
    OneDigit(n / base, base);
    assert Digits(n, base, 2) == Digits(n / base, base, 1) + [Digit(n % base)];
  }

  lemma FiveDigits(n: nat)
    requires n < 100000
    ensures Digits(n, 10, 5)
         == [Digit(n / 10000), Digit(n / 1000 % 10), Digit(n / 100 % 10), Digit(n / 10 % 10), Digit(n % 10)]
  {
    hide Digit;
    Quotients(n);
    OneDigit(n / 10000, 10);
    OneMore(n / 1000, 1);
    OneMore(n / 100, 2);
    OneMore(n / 10, 3);
    OneMore(n, 4);
    hide Digits;
  }

  lemma OneMore(n: nat, w: nat)
    ensures Digits(n, 10, w + 1) == Digits(n / 10, 10, w) + [Digit(n % 10)]
  {
  }

  lemma Quotients(n: nat)
    ensures n / 10 / 10 == n / 100 && n / 100 / 10 == n / 1000 && n / 1000 / 10 == n / 10000
  {
  }

  lemma DateParts(high: Byte, low: Byte)
    ensures Year(Be16(high, low)) == high / 2 % 64
    ensures Month(Be16(high, low)) == high % 2 * 8 + low / 32
    ensures Day(Be16(high, low)) == low % 32
  {
    var v := Be16(high, low);
    var h: int, l: int := high, low;
    DivisionIs(v, 512, h / 2, 256 * (h % 2) + l);
    DivisionIs(v, 32, 8 * h + l / 32, l % 32);
    DivisionIs(8 * h + l / 32, 16, h / 2, h % 2 * 8 + l / 32);
  }

  lemma Spelled(a: char, b: char, c: char, d: char, y: char, z: char, m: char, n: char, e: char, f: char, t: string)
    requires |t| == 5
    ensures ([a, b] + [c, d]) + ([y, z] + [m, n] + [e, f]) + t
         == [a, b, c, d, y, z, m, n, e, f, t[0], t[1], t[2], t[3], t[4]]
  {
  }

  lemma BodyCharacters(b: Block)
    ensures var n := 256 * b[6] as int + b[7] as int;
            var year, month, day := b[4] / 2 % 64, b[4] % 2 * 8 + b[5] as int / 32, b[5] % 32;
            Body(b) ==
              [Digit(b[2] / 16), Digit(b[2] % 16), Digit(b[3] / 16), Digit(b[3] % 16),
               Digit(year / 10), Digit(year % 10), Digit(month / 10), Digit(month % 10),
               Digit(day / 10), Digit(day % 10),
               Digit(n / 10000), Digit(n / 1000 % 10), Digit(n / 100 % 10), Digit(n / 10 % 10), Digit(n % 10)]
  {
    hide Digits, Body, Digit, Year, Month, Day, DigitValue;
    BodyIsDigits(b);
    TwoBytes(b[2], b[3]);
    DateParts(b[4], b[5]);
    var year, month, day := b[4] / 2 % 64, b[4] % 2 * 8 + b[5] as int / 32, b[5] % 32;
    TwoDigits(b[2], 16);
    TwoDigits(b[3], 16);
    TwoDigits(year, 10);
    TwoDigits(month, 10);
    TwoDigits(day, 10);
    FiveDigits(Be16(b[6], b[7]));
    Spelled(Digit(b[2] / 16), Digit(b[2] % 16), Digit(b[3] / 16), Digit(b[3] % 16), Digit(year / 10), Digit(year % 10),
            Digit(month / 10), Digit(month % 10), Digit(day / 10), Digit(day % 10), Digits(Be16(b[6], b[7]), 10, 5));
  }

  /** The last fifteen characters, one by one: extra id, year, month, day and serial number. */
  lemma PrintedTail(b: Block)
    ensures var s, n := Print(b), 256 * b[6] as int + b[7] as int;
            var year, month, day := b[4] / 2 % 64, b[4] % 2 * 8 + b[5] as int / 32, b[5] % 32;
            && |s| >= 15
            && s[|s| - 15..] ==
                 [Digit(b[2] / 16), Digit(b[2] % 16), Digit(b[3] / 16), Digit(b[3] % 16),
                  Digit(year / 10), Digit(year % 10), Digit(month / 10), Digit(month % 10),
                  Digit(day / 10), Digit(day % 10),
                  Digit(n / 10000), Digit(n / 1000 % 10), Digit(n / 100 % 10), Digit(n / 10 % 10), Digit(n % 10)]
  {
    hide Digits, Body, Head, Digit, DigitValue;
    BodyCharacters(b);
    Behind(Head(Be16(b[0], b[1])), Body(b));
  }

  /** The characters before them: two letters for a known issuer, otherwise the issuer in hex. */
  lemma PrintedFront(b: Block)
    ensures |Print(b)| >= 15
    ensures Print(b)[..|Print(b)| - 15] ==
              if b[0] == 0x01 && b[1] == 0x02 then "JH"
              else if b[0] == 0x01 && b[1] == 0x03 then "JE"
              else if b[0] == 0x01 && b[1] == 0x04 then "JC"
              else if b[0] == 0x01 && b[1] == 0x05 then "JW"
              else if b[0] == 0x01 && b[1] == 0x07 then "JK"
              else if b[0] == 0x02 && b[1] == 0x52 then "PB"
              else if b[0] == 0x03 && b[1] == 0x87 then "TP"
              else if b[0] == 0x04 && b[1] == 0xAD then "SU"
              else if b[0] == 0x05 && b[1] == 0xD5 then "NR"
              else if b[0] == 0x05 && b[1] == 0xD7 then "FC"
              else [Digit(b[0] / 16), Digit(b[0] % 16), Digit(b[1] / 16), Digit(b[1] % 16)]
  {
    hide Digits, Body, Digit, DigitValue;
    PrintedHead(b);
    PrintedTail(b);
    BodyCharacters(b);
    TwoBytes(b[0], b[1]);
    TwoDigits(b[0], 16);
    TwoDigits(b[1], 16);
    InFront(Head(Be16(b[0], b[1])), Body(b));
  }

  lemma InFront(a: string, b: string)
    ensures (a + b)[..|a + b| - |b|] == a
  {
  }

  lemma Behind(a: string, b: string)
    ensures (a + b)[|a + b| - |b|..] == b
  {
  }

  lemma HighLow(h: Byte, l: Byte)
    ensures High(Be16(h, l)) == h && Low(Be16(h, l)) == l
  {
    var n := Be16(h, l);
    assert n / 256 == h && n % 256 == l;
  }

  /** Dropping the top bit of a number drops it from the high byte. */
  lemma WithoutTopBit(h: Byte, l: Byte)
    ensures h % 128 < 256 && Be16(h, l) % 0x8000 == Be16(h % 128, l)
  {
    var n := Be16(h, l);
    assert n == 0x8000 * (h / 128) + (256 * (h % 128) + l);
  }

  lemma Reassembled(b: Block)
    ensures Pack(Be16(b[0], b[1]), Be16(b[2], b[3]), Be16(b[4], b[5]) % 0x8000, Be16(b[6], b[7])) == b[4 := b[4] % 128]
  {
    HighLow(b[0], b[1]);
    HighLow(b[2], b[3]);
    WithoutTopBit(b[4], b[5]);
    HighLow(b[4] % 128, b[5]);
    HighLow(b[6], b[7]);
    hide High, Low, Be16;
  }

  lemma WrongLength(rest: string)
    requires |rest| != 15
    ensures ParseBody(rest) == None
  {
  }

  lemma PackedParts(issuer: nat, extra: nat, v: nat, tail: nat)
    requires issuer < 0x1_0000 && extra < 0x1_0000 && v < 0x1_0000 && tail < 0x1_0000
    ensures var b := Pack(issuer, extra, v, tail);
      Be16(b[0], b[1]) == issuer && Be16(b[2], b[3]) == extra && Be16(b[4], b[5]) == v && Be16(b[6], b[7]) == tail
  {
  }

  lemma HeadParsed(s: string)
    requires ParseHead(s).Some?
    ensures var (issuer, rest) := ParseHead(s).value;
      && issuer < 0x1_0000 && |rest| <= |s| && rest == s[|s| - |rest|..]
      && (|s| == |rest| + 2 || |s| == |rest| + 4)
      && (|s| == |rest| + 2 ==> Prefix(issuer) == s[..2]) && (|s| == |rest| + 4 ==> Digits(issuer, 16, 4) == s[..4])
  {
    Widths();
    hide Power, Digits, ParseInt, DigitValue;
    PrefixTablesAgree(ParseHead(s).value.0, if |s| < 2 then "?" else s[..2]);
    if |s| >= 4 && AllDigits(s[..4], 16) { DigitsOfParse(s[..4], 16); }
  }

  /** Parsing tells the head from the body. */
  lemma ParsedParts(s: string)
    requires Parse(s).Some?
    ensures |s| == 17 || |s| == 19
    ensures var b := Parse(s).value; ParseHead(s) == Some((Be16(b[0], b[1]), s[|s| - 15..]))
    ensures var b := Parse(s).value;
            ParseBody(s[|s| - 15..]) == Some((Be16(b[2], b[3]), Be16(b[4], b[5]), Be16(b[6], b[7])))
    ensures var b := Parse(s).value; |s| == 17 ==> Prefix(Be16(b[0], b[1])) == s[..2]
    ensures var b := Parse(s).value; |s| == 19 ==> Digits(Be16(b[0], b[1]), 16, 4) == s[..4]
  {
    HeadParsed(s);
    hide ParseHead, ParseBody, Pack, Digits, Prefix, Be16;
    var (issuer, rest) := ParseHead(s).value;
    BodyParsed(rest);
    var (extra, v, tail) := ParseBody(rest).value;
    PackedParts(issuer, extra, v, tail);
  }

  lemma BodyParsed(rest: string)
    requires ParseBody(rest).Some?
    ensures var (extra, v, tail) := ParseBody(rest).value;
      |rest| == 15 && extra < 0x1_0000 && v < 0x1_0000 && tail < 0x1_0000
  {
    Widths();
    DigitsOfParse(rest[..4], 16);
  }

  /** Convertible numbers in terms of the number itself: the year needs six bits, and no known issuer is spelled in
      hex. */
  lemma ConvertibleGuard(s: string)
    ensures Convertible(s) <==>
      && Parse(s).Some?
      && Parse(s).value[4] < 128
      && (|s| == 17 || Prefix(Be16(Parse(s).value[0], Parse(s).value[1])) == "")
  {
    if Parse(s).Some? {
      var b := Parse(s).value;
      ParsedParts(s);
      PrintedHead(b);
      PrintedBody(b);
      PrintParsedBody(s[|s| - 15..], b);
      hide Body, Digits, ParseBody, ParseHead, Parse, Prefix;
      var h := Head(Be16(b[0], b[1]));
      assert s == s[..|s| - 15] + s[|s| - 15..];
      if |h| == |s| - 15 {
        assert Print(b)[..|h|] == h && Print(b)[|h|..] == Body(b);
      }
    }
  }

  /** The numbers accepted as convertible are exactly those printed from a lossless IDi, each from one. */
  lemma ConvertibleExactly(s: string)
    ensures Convertible(s) <==> exists b: Block :: Lossless(b) && Print(b) == s
    ensures forall b: Block, c: Block :: Lossless(b) && Lossless(c) && Print(b) == Print(c) ==> b == c
  {
    if Convertible(s) {
      ParseOfPrint(Parse(s).value);
    }
    forall b: Block | Lossless(b) ensures Parse(Print(b)) == Some(b) {
      ParseOfPrint(b);
    }
  }

  // ---------------------------------------------------------------- the string interface

  /** White space as JavaScript's patterns and trimming have it. */
  predicate IsSpace(c: char) {
    || '\U{9}' <= c <= '\U{D}' || c == ' ' || c == '\U{A0}' || c == '\U{1680}' || '\U{2000}' <= c <= '\U{200A}'
    || c == '\U{2028}' || c == '\U{2029}' || c == '\U{202F}' || c == '\U{205F}' || c == '\U{3000}' || c == '\U{FEFF}'
  }

  function Upper(c: char): char {
    if 'a' <= c <= 'z' then (c as int - 32) as char else c
  }

  function Lower(c: char): char {
    if 'A' <= c <= 'Z' then (c as int + 32) as char else c
  }

  /** What an upper-casing makes of each character: JavaScript's "\u00df" becomes "SS", a dotless i an I. */
  type Casing = char -> string

  predicate IsDropped(c: char) {
    IsSpace(c) || c == '-'
  }

  /** ASCII as usual; what other characters become is arbitrary, but upper-casing that again changes nothing. */
  ghost predicate IsCasing(up: Casing) {
    && (forall c: char :: c < '\U{80}' ==> up(c) == [Upper(c)])
    && forall c: char, k: nat :: k < |up(c)| && !IsDropped(c) ==> up(up(c)[k]) == [up(c)[k]] && !IsDropped(up(c)[k])
  }

  function Uppercased(up: Casing, s: string): string {
    if s == "" then "" else up(s[0]) + Uppercased(up, s[1..])
  }

  lemma Associative(a: string, b: string, c: string)
    ensures a + (b + c) == a + b + c
  {
  }

  lemma {:induction false} UppercasedConcat(up: Casing, a: string, b: string)
    ensures Uppercased(up, a + b) == Uppercased(up, a) + Uppercased(up, b)
  {
    if a == "" {
      assert a + b == b;
    } else {
      UppercasedConcat(up, a[1..], b);
      assert (a + b)[1..] == a[1..] + b;
      Associative(up(a[0]), Uppercased(up, a[1..]), Uppercased(up, b));
    }
  }

  function MapChars(f: char -> char, s: string): (r: string)
    ensures |r| == |s|
    ensures forall i :: 0 <= i < |s| ==> r[i] == f(s[i])
  {
    seq(|s|, i requires 0 <= i < |s| => f(s[i]))
  }

  /** Spaces and hyphens dropped. */
  function Squeeze(s: string): string {
    if s == "" then ""
    else (if IsDropped(s[0]) then "" else [s[0]]) + Squeeze(s[1..])
  }

  lemma {:induction false} SqueezeConcat(a: string, b: string)
    ensures Squeeze(a + b) == Squeeze(a) + Squeeze(b)
  {
    if a == "" {
      assert a + b == b;
    } else {
      hide IsDropped;
      SqueezeConcat(a[1..], b);
      assert (a + b)[1..] == a[1..] + b;
      Associative(if IsDropped(a[0]) then "" else [a[0]], Squeeze(a[1..]), Squeeze(b));
    }
  }

  /** White space is exactly JavaScript's; the hyphen is dropped with it. */
  lemma DroppedMeans(c: char)
    ensures IsSpace(c) <==>
            var n := c as int;
            || 9 <= n <= 13 || n == 0x20 || n == 0xA0 || n == 0x1680 || 0x2000 <= n <= 0x200A || n == 0x2028
            || n == 0x2029 || n == 0x202F || n == 0x205F || n == 0x3000 || n == 0xFEFF
    ensures IsDropped(c) <==> IsSpace(c) || c as int == 0x2D
  {
  }

  lemma CasesMean(c: char)
    ensures 'a' <= c <= 'z' ==> Upper(c) as int == c as int - 32
    ensures 'A' <= c <= 'Z' ==> Lower(c) as int == c as int + 32
    ensures !('a' <= c <= 'z') ==> Upper(c) == c
    ensures !('A' <= c <= 'Z') ==> Lower(c) == c
  {
  }

  /** What is squeezed out is dropped, and the rest stays, in order. */
  lemma {:induction false} SqueezeMeans(s: string, t: string)
    ensures Squeeze(s + t) == Squeeze(s) + Squeeze(t)
    ensures |s| == 1 ==> Squeeze(s) == if IsDropped(s[0]) then "" else s
  {
    hide IsDropped;
    SqueezeConcat(s, t);
    if |s| == 1 {
      assert s[1..] == "";
    }
  }

  function Normalize(up: Casing, card: string): string {
    Uppercased(up, Squeeze(card))
  }

  function Trim(s: string): string
    decreases |s|
  {
    if s != "" && IsSpace(s[0]) then Trim(s[1..])
    else if s != "" && IsSpace(s[|s| - 1]) then Trim(s[..|s| - 1])
    else s
  }

  lemma FrontSpace(s: string, before: string, t: string, after: string)
    requires s != "" && s[1..] == before + t + after
    ensures s == ([s[0]] + before) + t + after
  {
    assert s == [s[0]] + s[1..];
  }

  lemma BackSpace(s: string, before: string, t: string, after: string)
    requires s != "" && s[..|s| - 1] == before + t + after
    ensures s == before + t + (after + [s[|s| - 1]])
  {
    assert s == s[..|s| - 1] + [s[|s| - 1]];
  }

  /** Only white space is trimmed, and none is left at either end. */
  lemma {:induction false} TrimMeans(s: string) returns (before: string, after: string)
    ensures s == before + Trim(s) + after
    ensures forall i :: 0 <= i < |before| ==> IsSpace(before[i])
    ensures forall i :: 0 <= i < |after| ==> IsSpace(after[i])
    ensures Trim(s) != "" ==> !IsSpace(Trim(s)[0]) && !IsSpace(Trim(s)[|Trim(s)| - 1])
    decreases |s|
  {
    hide IsSpace;
    before, after := "", "";
    if s != "" && IsSpace(s[0]) {
      before, after := TrimMeans(s[1..]);
      FrontSpace(s, before, Trim(s), after);
      before := [s[0]] + before;
    } else if s != "" && IsSpace(s[|s| - 1]) {
      before, after := TrimMeans(s[..|s| - 1]);
      BackSpace(s, before, Trim(s), after);
      after := after + [s[|s| - 1]];
    }
  }

  predicate IsLowerHex(s: string) {
    forall i :: 0 <= i < |s| ==> '0' <= s[i] <= '9' || 'a' <= s[i] <= 'f'
  }

  function HexPair(s: string): (b: Byte)
    requires |s| == 2 && IsLowerHex(s)
  {
    Widths();
    DigitsOfParse(MapChars(Upper, s), 16);
    ParseInt(MapChars(Upper, s), 16)
  }

  function HexPairs(s: string): (bytes: Bytes)
    requires |s| % 2 == 0 && IsLowerHex(s)
    ensures 2 * |bytes| == |s|
  {
    if s == "" then [] else HexPairs(s[..|s| - 2]) + [HexPair(s[|s| - 2..])]
  }

  /** Two hexadecimal digits make a byte, the first one the high half. */
  lemma HexPairMeans(s: string)
    requires |s| == 2 && IsLowerHex(s)
    ensures HexPair(s) == 16 * DigitValue(Upper(s[0])) + DigitValue(Upper(s[1]))
  {
    var t := MapChars(Upper, s);
    assert ParseInt(t[..1], 16) == DigitValue(t[0]) by { assert t[..1][..0] == ""; }
  }

  /** Byte i is the value of characters 2i and 2i + 1. */
  lemma {:induction false} HexPairsMean(s: string, i: nat)
    requires |s| % 2 == 0 && IsLowerHex(s) && 2 * i < |s|
    ensures HexPairs(s)[i] == 16 * DigitValue(Upper(s[2 * i])) + DigitValue(Upper(s[2 * i + 1]))
    decreases |s|
  {
    hide HexPair, DigitValue;
    if 2 * i == |s| - 2 {
      HexPairMeans(s[|s| - 2..]);
    } else {
      HexPairsMean(s[..|s| - 2], i);
    }
  }

  function PairsBefore(s: string, i: nat): Bytes
    requires IsLowerHex(s) && i <= |s| && i % 2 == 0
  {
    HexPairs(s[..i])
  }

  lemma HexPairsStep(s: string, i: nat)
    requires IsLowerHex(s) && i % 2 == 0 && i + 2 <= |s|
    ensures IsLowerHex(s[i..i + 2]) && PairsBefore(s, i + 2) == PairsBefore(s, i) + [HexPair(s[i..i + 2])]
  {
    hide HexPair;
    assert s[..i + 2][..i] == s[..i] && s[..i + 2][i..] == s[i..i + 2];
  }

  lemma AllPairs(s: string)
    requires IsLowerHex(s) && |s| % 2 == 0
    ensures PairsBefore(s, |s|) == HexPairs(s)
  {
    assert s[..|s|] == s;
  }

  function BytesOfHex(h: string): Option<Bytes> {
    var s := MapChars(Lower, Trim(h));
    if !IsLowerHex(s) || |s| % 2 != 0 then None else Some(HexPairs(s))
  }

  /** The push loop. */
  method PushPairs(s: string) returns (out: Bytes)
    requires IsLowerHex(s) && |s| % 2 == 0
    ensures out == HexPairs(s)
  {
    out := [];
    var i := 0;
    assert PairsBefore(s, 0) == [];
    hide HexPairs, HexPair, PairsBefore;
    while i < |s|
      invariant 0 <= i <= |s| && i % 2 == 0
      invariant out == PairsBefore(s, i)
    {
      HexPairsStep(s, i);
      out := out + [HexPair(s[i..i + 2])];
      i := i + 2;
    }
    AllPairs(s);
  }

  method HexToBytes(h: string) returns (r: Option<Bytes>)
    ensures r == BytesOfHex(h)
  {
    hide HexPairs, IsLowerHex;
    var s := MapChars(Lower, Trim(h));
    if !IsLowerHex(s) || |s| % 2 != 0 {
      return None;
    }
    var out := PushPairs(s);
    return Some(out);
  }

  function HexByte(b: Byte): string {
    MapChars(Lower, Padded(b, 16, 2))
  }

  function HexOfBytes(bytes: Bytes): string {
    if bytes == [] then "" else HexOfBytes(bytes[..|bytes| - 1]) + HexByte(bytes[|bytes| - 1])
  }

  lemma HexByteRoundTrip(b: Byte)
    ensures |HexByte(b)| == 2 && IsLowerHex(HexByte(b)) && HexPair(HexByte(b)) == b
  {
    Widths();
    PaddedIsDigits(b, 16, 2);
    ParseOfDigits(b, 16, 2);
    assert MapChars(Upper, HexByte(b)) == Digits(b, 16, 2);
  }

  lemma AppendedPair(s: string, pair: string)
    requires IsLowerHex(s) && |s| % 2 == 0 && IsLowerHex(pair) && |pair| == 2
    ensures IsLowerHex(s + pair) && HexPairs(s + pair) == HexPairs(s) + [HexPair(pair)]
  {
    hide HexPair;
    assert (s + pair)[..|s|] == s && (s + pair)[|s|..] == pair;
  }

  lemma HexOfSnoc(bytes: Bytes)
    requires bytes != []
    ensures HexOfBytes(bytes) == HexOfBytes(bytes[..|bytes| - 1]) + HexByte(bytes[|bytes| - 1])
  {
  }

  lemma {:induction false} HexLength(bytes: Bytes)
    ensures |HexOfBytes(bytes)| == 2 * |bytes| && IsLowerHex(HexOfBytes(bytes))
  {
    if bytes != [] {
      hide HexByte, HexOfBytes;
      HexOfSnoc(bytes);
      HexLength(bytes[..|bytes| - 1]);
      HexByteRoundTrip(bytes[|bytes| - 1]);
    }
  }

  lemma HexPairsSnoc(init: Bytes, last: Byte)
    requires IsLowerHex(HexOfBytes(init)) && |HexOfBytes(init)| % 2 == 0
    ensures IsLowerHex(HexOfBytes(init + [last])) && |HexOfBytes(init + [last])| % 2 == 0
    ensures HexPairs(HexOfBytes(init + [last])) == HexPairs(HexOfBytes(init)) + [last]
  {
    hide HexByte, HexPair, HexPairs, HexOfBytes, IsLowerHex;
    HexOfSnoc(init + [last]);
    assert (init + [last])[..|init|] == init;
    HexByteRoundTrip(last);
    AppendedPair(HexOfBytes(init), HexByte(last));
  }

  /** The hex of bytes is lower-case hex of even length that reads back as the bytes. */
  ghost predicate ReadsBack(bytes: Bytes) {
    var s := HexOfBytes(bytes);
    |s| == 2 * |bytes| && IsLowerHex(s) && HexPairs(s) == bytes
  }

  lemma NothingReadsBack()
    ensures ReadsBack([])
  {
  }

  lemma ReadsBackSnoc(init: Bytes, last: Byte)
    requires ReadsBack(init)
    ensures ReadsBack(init + [last])
  {
    hide HexPairs, HexOfBytes, IsLowerHex;
    HexLength(init + [last]);
    HexPairsSnoc(init, last);
  }

  lemma {:induction false} HexPairsOfBytes(bytes: Bytes)
    ensures ReadsBack(bytes)
  {
    hide ReadsBack;
    if bytes == [] {
      NothingReadsBack();
    } else {
      var init, last := bytes[..|bytes| - 1], bytes[|bytes| - 1];
      HexPairsOfBytes(init);
      ReadsBackSnoc(init, last);
      assert bytes == init + [last];
    }
  }

  lemma LowerHexIsPlain(s: string)
    requires IsLowerHex(s)
    ensures MapChars(Lower, Trim(s)) == s
  {
    assert Trim(s) == s;
  }

  lemma PlainHex(s: string)
    requires IsLowerHex(s) && |s| % 2 == 0
    ensures BytesOfHex(s) == Some(HexPairs(s))
  {
    hide IsLowerHex, HexPairs, MapChars, Trim;
    LowerHexIsPlain(s);
  }

  /** Reading the hex of bytes gives the bytes. */
  lemma HexRoundTrip(bytes: Bytes)
    ensures BytesOfHex(HexOfBytes(bytes)) == Some(bytes)
  {
    hide BytesOfHex, IsLowerHex, HexOfBytes, HexPairs;
    HexPairsOfBytes(bytes);
    PlainHex(HexOfBytes(bytes));
  }

  function IdiToCardNumber(idiHex: string): Option<string> {
    match BytesOfHex(idiHex)
    case None => None
    case Some(b) => if |b| != 8 then None else Some(Print(b))
  }

  function CardNumberToIdi(up: Casing, card: string): Option<string> {
    match Parse(Normalize(up, card))
    case None => None
    case Some(b) => Some(HexOfBytes(b))
  }

  predicate IsConvertibleCardNumber(up: Casing, card: string) {
    var idi := CardNumberToIdi(up, card);
    idi.Some? && IdiToCardNumber(idi.value) == Some(Normalize(up, card))
  }

  /** What Normalize leaves unchanged. */
  predicate Normal(up: Casing, s: string) {
    forall i :: 0 <= i < |s| ==> !IsDropped(s[i]) && up(s[i]) == [s[i]]
  }

  lemma {:induction false} NormalIsKept(up: Casing, s: string)
    requires Normal(up, s)
    ensures Normalize(up, s) == s && Uppercased(up, s) == s
  {
    if s != "" {
      NormalIsKept(up, s[1..]);
      assert Squeeze(s) == [s[0]] + Squeeze(s[1..]);
      assert Squeeze(s)[1..] == Squeeze(s[1..]);
    }
  }

  predicate CardText(s: string) {
    forall i :: 0 <= i < |s| ==> 'A' <= s[i] <= 'Z' || '0' <= s[i] <= '9'
  }

  lemma CardTextIsNormal(up: Casing, s: string)
    requires IsCasing(up) && CardText(s)
    ensures Normal(up, s)
  {
    forall i | 0 <= i < |s| ensures up(s[i]) == [s[i]] {
      assert s[i] < '\U{80}';
    }
  }

  lemma PrintIsCardText(b: Block)
    ensures CardText(Print(b))
  {
    PrintedHead(b);
    BodyIsDigits(b);
    hide Digits, Body, Head;
    assert CardText(Body(b));
    assert CardText(Head(Be16(b[0], b[1]))) by { HeadIsCardText(b); }
  }

  lemma HeadIsCardText(b: Block)
    ensures CardText(Head(Be16(b[0], b[1])))
  {
    PrintedHead(b);
    hide Digits;
  }

  /** The public conversions: hex to card number to hex loses nothing exactly for the lossless IDis. */
  lemma RoundTripExactly(up: Casing, b: Block)
    requires IsCasing(up)
    ensures IdiToCardNumber(HexOfBytes(b)) == Some(Print(b))
    ensures CardNumberToIdi(up, Print(b)) == Some(HexOfBytes(b)) <==> Lossless(b)
  {
    hide Print, Parse, HexOfBytes, BytesOfHex, Normalize, Uppercased, Normal, IsCasing;
    HexRoundTrip(b);
    ParseOfPrint(b);
    PrintIsCardText(b);
    CardTextIsNormal(up, Print(b));
    NormalIsKept(up, Print(b));
    if Parse(Print(b)).Some? { HexRoundTrip(Parse(Print(b)).value); }
  }

  lemma IsConvertibleMeans(up: Casing, card: string)
    ensures IsConvertibleCardNumber(up, card) <==> Convertible(Normalize(up, card))
  {
    hide Print, Parse, HexOfBytes, BytesOfHex, Normalize;
    if Parse(Normalize(up, card)).Some? { HexRoundTrip(Parse(Normalize(up, card)).value); }
  }

  // ---------------------------------------------------------------- clean-up of recognized text

  predicate IsCardChar(c: char) {
    'A' <= c <= 'Z' || '0' <= c <= '9'
  }

  /** Everything but letters and digits dropped. */
  function KeepCardChars(s: string): (r: string)
    ensures CardText(r)
  {
    if s == "" then "" else (if IsCardChar(s[0]) then [s[0]] else "") + KeepCardChars(s[1..])
  }

  /** The digit a letter is a misreading of; other characters stand for themselves. */
  function LetterToDigit(c: char): char {
    if c in "OQDCU" then '0'
    else if c in "IL" then '1'
    else if c == 'Z' then '2'
    else if c == 'A' then '4'
    else if c == 'S' then '5'
    else if c == 'G' then '6'
    else if c == 'T' then '7'
    else if c == 'B' then '8'
    else if c == 'P' then '9'
    else c
  }

  /** The character at position i: the issuer's letters stay, then hex digits, then decimal digits. */
  function CleanAt(i: nat, c: char): char {
    if i < 2 then c
    else if i < 6 then if IsDigit(c, 16) then c else LetterToDigit(c)
    else if IsDigit(c, 10) then c else LetterToDigit(c)
  }

  /** From position 6 on digits stay, and a letter that looks like a digit becomes it: A to I. */
  lemma CleanFirstLetters(i: nat)
    requires i >= 6
    ensures forall c: char :: '0' <= c <= '9' ==> CleanAt(i, c) == c
    ensures CleanAt(i, 'A') == '4' && CleanAt(i, 'B') == '8' && CleanAt(i, 'C') == '0'
    ensures CleanAt(i, 'D') == '0' && CleanAt(i, 'E') == 'E' && CleanAt(i, 'F') == 'F'
    ensures CleanAt(i, 'G') == '6' && CleanAt(i, 'H') == 'H' && CleanAt(i, 'I') == '1'
  {
  }

  /** J to R. */
  lemma CleanMiddleLetters(i: nat)
    requires i >= 6
    ensures CleanAt(i, 'J') == 'J' && CleanAt(i, 'K') == 'K' && CleanAt(i, 'L') == '1'
    ensures CleanAt(i, 'M') == 'M' && CleanAt(i, 'N') == 'N' && CleanAt(i, 'O') == '0'
    ensures CleanAt(i, 'P') == '9' && CleanAt(i, 'Q') == '0' && CleanAt(i, 'R') == 'R'
  {
  }

  /** S to Z. */
  lemma CleanLastLetters(i: nat)
    requires i >= 6
    ensures CleanAt(i, 'S') == '5' && CleanAt(i, 'T') == '7' && CleanAt(i, 'U') == '0'
    ensures CleanAt(i, 'V') == 'V' && CleanAt(i, 'W') == 'W' && CleanAt(i, 'X') == 'X'
    ensures CleanAt(i, 'Y') == 'Y' && CleanAt(i, 'Z') == '2'
  {
  }

  /** Before that, the first two characters stay as they are, and in the next four A to F stay, too. */
  lemma CleanHead(i: nat, c: char)
    ensures i < 2 ==> CleanAt(i, c) == c
    ensures 2 <= i < 6 ==> CleanAt(i, c) == if 'A' <= c <= 'F' then c else CleanAt(6, c)
  {
    hide LetterToDigit;
  }

  function CleanPrefix(s: string, n: nat): (r: string)
    requires n <= |s|
    ensures |r| == n
  {
    seq(n, i requires 0 <= i < n => CleanAt(i, s[i]))
  }

  function Clean(up: Casing, raw: string): (r: string)
    ensures |r| <= 17
  {
    var s := KeepCardChars(Uppercased(up, raw));
    CleanPrefix(s, if |s| < 17 then |s| else 17)
  }

  method CleanCardNumber(up: Casing, raw: string) returns (r: string)
    ensures r == Clean(up, raw)
  {
    hide LetterToDigit, DigitValue, KeepCardChars, Uppercased;
    var s := KeepCardChars(Uppercased(up, raw));
    var out := if |s| < 2 then s else s[..2];
    var i := |out|;
    while i < 6 && i < |s|
      invariant |s| < 2 ==> i == |s|
      invariant |s| >= 2 ==> 2 <= i <= |s| && i <= 6
      invariant out == CleanPrefix(s, i)
    {
      out := out + [if IsDigit(s[i], 16) then s[i] else LetterToDigit(s[i])];
      i := i + 1;
    }
    while i < |s|
      invariant i <= |s|
      invariant i < |s| ==> i >= 6
      invariant out == CleanPrefix(s, i)
    {
      out := out + [if IsDigit(s[i], 10) then s[i] else LetterToDigit(s[i])];
      i := i + 1;
    }
    r := if |out| < 17 then out else out[..17];
  }

  lemma {:induction false} KeepsCardText(s: string)
    requires CardText(s)
    ensures KeepCardChars(s) == s
  {
    if s != "" { KeepsCardText(s[1..]); }
  }

  lemma CleanOfCardText(up: Casing, s: string)
    requires IsCasing(up) && CardText(s)
    ensures Clean(up, s) == CleanPrefix(s, if |s| < 17 then |s| else 17)
  {
    CardTextIsNormal(up, s);
    NormalIsKept(up, s);
    KeepsCardText(s);
  }

  lemma CleanedIsCardText(s: string, n: nat)
    requires n <= |s| && CardText(s)
    ensures CardText(CleanPrefix(s, n))
  {
  }

  /** Cleaning twice is cleaning once. */
  lemma CleanIdempotent(up: Casing, raw: string)
    requires IsCasing(up)
    ensures Clean(up, Clean(up, raw)) == Clean(up, raw)
  {
    var s := Clean(up, raw);
    CleanedIsCardText(KeepCardChars(Uppercased(up, raw)), |s|);
    CleanOfCardText(up, s);
    forall i | 0 <= i < |s| ensures CleanAt(i, s[i]) == s[i] {
    }
  }

  /** A convertible number survives the clean-up exactly when its issuer is spelled in two letters. */
  lemma CleanKeepsCardNumbers(up: Casing, s: string)
    requires IsCasing(up) && Convertible(s)
    ensures Clean(up, s) == s <==> |s| == 17
  {
    ParsedParts(s);
    PrintIsCardText(Parse(s).value);
    hide Print, Parse, ParseInt;
    CleanOfCardText(up, s);
    if |s| == 17 {
      var rest := s[2..];
      assert AllDigits(rest[..4], 16) && AllDigits(rest[4..10], 10) && AllDigits(rest[10..15], 10);
      forall i | 0 <= i < 17 ensures CleanAt(i, s[i]) == s[i] {
        if 2 <= i < 6 { assert s[i] == rest[..4][i - 2]; }
        if 6 <= i < 12 { assert s[i] == rest[4..10][i - 6]; }
        if 12 <= i { assert s[i] == rest[10..15][i - 12]; }
      }
    }
  }

  // ---------------------------------------------------------------- display

  function Slice(s: string, a: nat, b: nat): string
    requires a <= b
  {
    if |s| <= a then "" else if |s| <= b then s[a..] else s[a..b]
  }

  /** Non-empty groups joined by spaces. */
  function JoinGroups(groups: seq<string>): string {
    if groups == [] then ""
    else if groups[0] == "" then JoinGroups(groups[1..])
    else if JoinGroups(groups[1..]) == "" then groups[0]
    else groups[0] + " " + JoinGroups(groups[1..])
  }

  function Format(up: Casing, card: string): string {
    var s := Normalize(up, card);
    JoinGroups([Slice(s, 0, 5), Slice(s, 5, 9), Slice(s, 9, 13), Slice(s, 13, 17)])
  }

  lemma NormalizeOfConcat(up: Casing, a: string, b: string)
    ensures Normalize(up, a + b) == Normalize(up, a) + Normalize(up, b)
  {
    SqueezeConcat(a, b);
    UppercasedConcat(up, Squeeze(a), Squeeze(b));
  }

  lemma OneCharIsNormal(up: Casing, c: char)
    requires IsCasing(up) && !IsDropped(c)
    ensures Normal(up, up(c))
  {
    forall k | 0 <= k < |up(c)| ensures !IsDropped(up(c)[k]) && up(up(c)[k]) == [up(c)[k]] {
    }
  }

  lemma {:induction false} NormalizedIsNormal(up: Casing, card: string)
    requires IsCasing(up)
    ensures Normal(up, Normalize(up, card))
  {
    if card != "" {
      NormalizedIsNormal(up, card[1..]);
      hide IsCasing, IsDropped;
      if IsDropped(card[0]) {
        assert Squeeze(card) == Squeeze(card[1..]);
      } else {
        OneCharIsNormal(up, card[0]);
        assert Squeeze(card) == [card[0]] + Squeeze(card[1..]);
        assert Squeeze(card)[1..] == Squeeze(card[1..]);
        assert Normalize(up, card) == up(card[0]) + Normalize(up, card[1..]);
      }
    }
  }

  lemma {:induction false} JoinNormalizes(up: Casing, groups: seq<string>)
    requires forall i :: 0 <= i < |groups| ==> Normal(up, groups[i])
    ensures Normalize(up, JoinGroups(groups)) == Concat(groups)
  {
    hide Normalize, Normal;
    SpaceIsDropped(up);
    if groups != [] {
      JoinNormalizes(up, groups[1..]);
      NormalIsKept(up, groups[0]);
      var rest := JoinGroups(groups[1..]);
      NormalizeOfConcat(up, groups[0], " " + rest);
      NormalizeOfConcat(up, " ", rest);
      assert groups[0] + " " + rest == groups[0] + (" " + rest);
      assert "" + Normalize(up, rest) == Normalize(up, rest);
      assert groups[0] + "" == groups[0];
    }
  }

  lemma SpaceIsDropped(up: Casing)
    ensures Normalize(up, " ") == "" && Normalize(up, "") == ""
  {
    assert Squeeze(" ") == "" + Squeeze("");
  }

  function Concat(groups: seq<string>): string {
    if groups == [] then "" else groups[0] + Concat(groups[1..])
  }

  /** Reading back what is displayed gives the first seventeen characters: all of a two-letter number, not of a hex
      one. */
  lemma FormatKeepsSeventeen(up: Casing, card: string)
    requires IsCasing(up)
    ensures Normalize(up, Format(up, card)) == Slice(Normalize(up, card), 0, 17)
    ensures Normalize(up, Format(up, card)) == Normalize(up, card) <==> |Normalize(up, card)| <= 17
  {
    hide Normalize, Normal, IsCasing, Slice;
    var s := Normalize(up, card);
    NormalizedIsNormal(up, card);
    SliceIsNormal(up, s, 0, 5);
    SliceIsNormal(up, s, 5, 9);
    SliceIsNormal(up, s, 9, 13);
    SliceIsNormal(up, s, 13, 17);
    var groups := [Slice(s, 0, 5), Slice(s, 5, 9), Slice(s, 9, 13), Slice(s, 13, 17)];
    JoinNormalizes(up, groups);
    ConcatFour(Slice(s, 0, 5), Slice(s, 5, 9), Slice(s, 9, 13), Slice(s, 13, 17));
    SlicesJoin(s);
    WholeSlice(s);
  }

  lemma SliceIsNormal(up: Casing, s: string, a: nat, b: nat)
    requires Normal(up, s) && a <= b
    ensures Normal(up, Slice(s, a, b))
  {
  }

  lemma SlicesJoin(s: string)
    ensures Slice(s, 0, 5) + Slice(s, 5, 9) + Slice(s, 9, 13) + Slice(s, 13, 17) == Slice(s, 0, 17)
  {
    if |s| > 17 {
      assert s[..5] + s[5..9] + s[9..13] + s[13..17] == s[..17];
    } else if |s| > 13 {
      assert s[..5] + s[5..9] + s[9..13] + s[13..] == s;
    } else if |s| > 9 {
      assert s[..5] + s[5..9] + s[9..] == s;
    } else if |s| > 5 {
      assert s[..5] + s[5..] == s;
    }
  }

  lemma WholeSlice(s: string)
    ensures Slice(s, 0, 17) == s <==> |s| <= 17
  {
  }

  lemma ConcatFour(a: string, b: string, c: string, d: string)
    ensures Concat([a, b, c, d]) == a + b + c + d
  {
    assert [a, b, c, d][1..] == [b, c, d] && [b, c, d][1..] == [c, d] && [c, d][1..] == [d] && [d][1..] == [];
    assert Concat([d]) == d + Concat([]) == d;
    assert Concat([c, d]) == c + d;
    assert Concat([b, c, d]) == b + (c + d);
  }

  /** Seventeen characters are displayed in groups of five, four, four and four. */
  lemma FormatGroups(up: Casing, card: string)
    requires |Normalize(up, card)| == 17
    ensures var s := Normalize(up, card); Format(up, card) == s[..5] + " " + s[5..9] + " " + s[9..13] + " " + s[13..]
  {
    hide Normalize;
    var s := Normalize(up, card);
    JoinFour(s[..5], s[5..9], s[9..13], s[13..]);
    assert s[13..17] == s[13..];
  }

  lemma JoinFour(a: string, b: string, c: string, d: string)
    requires a != "" && b != "" && c != "" && d != ""
    ensures JoinGroups([a, b, c, d]) == a + " " + b + " " + c + " " + d
  {
    assert [a, b, c, d][1..] == [b, c, d] && [b, c, d][1..] == [c, d] && [c, d][1..] == [d] && [d][1..] == [];
    assert JoinGroups([d]) == d;
    assert JoinGroups([c, d]) == c + " " + d;
    assert JoinGroups([b, c, d]) == b + " " + (c + " " + d);
    assert JoinGroups([a, b, c, d]) == a + " " + (b + " " + (c + " " + d));
  }

  // ---------------------------------------------------------------- a real card

  const SAMPLE: Block := [0x05, 0xD5, 0x80, 0x7E, 0x28, 0x26, 0x02, 0x05]

  lemma SampleTail()
    ensures |Print(SAMPLE)| >= 15 && Print(SAMPLE)[|Print(SAMPLE)| - 15..] == "807E20010600517"
  {
    hide Print;
    PrintedTail(SAMPLE);
  }

  lemma SamplePrint()
    ensures Print(SAMPLE) == "NR807E20010600517"
  {
    hide Print, Digit;
    PrintedFront(SAMPLE);
    SampleTail();
    var s := Print(SAMPLE);
    assert s == s[..|s| - 15] + s[|s| - 15..];
  }

  lemma HexByteIs(b: Byte)
    ensures HexByte(b) == [Lower(Digit(b / 16)), Lower(Digit(b % 16))]
  {
    Widths();
    hide Digit, Digits, Power;
    PaddedIsDigits(b, 16, 2);
    TwoDigits(b, 16);
  }

  lemma NextPair(b: Bytes, i: nat)
    requires i < |b|
    ensures HexOfBytes(b[..i + 1]) == HexOfBytes(b[..i]) + [Lower(Digit(b[i] / 16)), Lower(Digit(b[i] % 16))]
  {
    HexByteIs(b[i]);
    HexOfSnoc(b[..i + 1]);
    assert b[..i + 1][..i] == b[..i];
  }

  lemma TwoPairs(b: Bytes, i: nat, x: string)
    requires i + 2 <= |b| && HexOfBytes(b[..i]) == x
    ensures HexOfBytes(b[..i + 2]) == x + [Lower(Digit(b[i] / 16)), Lower(Digit(b[i] % 16)),
                                           Lower(Digit(b[i + 1] / 16)), Lower(Digit(b[i + 1] % 16))]
  {
    hide HexOfBytes, Digit, Lower;
    NextPair(b, i);
    NextPair(b, i + 1);
  }

  lemma SampleHex()
    ensures HexOfBytes(SAMPLE) == "05d5807e28260205"
  {
    hide HexOfBytes;
    assert HexOfBytes(SAMPLE[..0]) == "" by { HexLength(SAMPLE[..0]); }
    TwoPairs(SAMPLE, 0, "");
    assert HexOfBytes(SAMPLE[..2]) == "05d5";
    TwoPairs(SAMPLE, 2, "05d5");
    assert HexOfBytes(SAMPLE[..4]) == "05d5807e";
    TwoPairs(SAMPLE, 4, "05d5807e");
    assert HexOfBytes(SAMPLE[..6]) == "05d5807e2826";
    TwoPairs(SAMPLE, 6, "05d5807e2826");
    assert SAMPLE[..8] == SAMPLE;
  }

  /** Any lossless IDi of a known issuer comes back from the number as it is displayed. */
  lemma DisplayedRoundTrip(up: Casing, b: Block)
    requires IsCasing(up) && Lossless(b) && |Print(b)| == 17
    ensures IdiToCardNumber(HexOfBytes(b)) == Some(Print(b))
    ensures Normalize(up, Print(b)) == Print(b)
    ensures CardNumberToIdi(up, Format(up, Print(b))) == Some(HexOfBytes(b))
  {
    hide Print, Parse, HexOfBytes, Normalize, IdiToCardNumber, IsCasing, Format;
    RoundTripExactly(up, b);
    PrintIsCardText(b);
    CardTextIsNormal(up, Print(b));
    NormalIsKept(up, Print(b));
    FormatKeepsSeventeen(up, Print(b));
  }

  /** The card the conversion is documented with: its number, as displayed, is its IDi. */
  lemma SampleCard(up: Casing)
    requires IsCasing(up)
    ensures IdiToCardNumber("05d5807e28260205") == Some("NR807E20010600517")
    ensures Format(up, "NR807E20010600517") == "NR807 E200 1060 0517"
    ensures CardNumberToIdi(up, "NR807 E200 1060 0517") == Some("05d5807e28260205")
  {
    hide Print, Parse, HexOfBytes, Normalize, IdiToCardNumber, CardNumberToIdi, IsCasing, Format;
    SamplePrint();
    SampleHex();
    DisplayedRoundTrip(up, SAMPLE);
    FormatGroups(up, "NR807E20010600517");
    SampleGroups("NR807E20010600517");
  }

  lemma SampleGroups(s: string)
    requires s == "NR807E20010600517"
    ensures s[..5] + " " + s[5..9] + " " + s[9..13] + " " + s[13..] == "NR807 E200 1060 0517"
  {
  }
}
