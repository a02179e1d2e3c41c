// FeliCa command frames and responses: a length byte that counts itself, a code, a
// payload. What is sent decodes to one command; what is accepted is one encoding.
module Frames {
  import opened Bits
  import opened Results

  const REQUEST_CODE_LIST: Byte := 0x1A
  const AUTHENTICATION1: Byte := 0x10
  const AUTHENTICATION2: Byte := 0x12

  type Word = x: int | 0 <= x < 0x1_0000

  datatype FrameError =
    | TooLong
    | NoResponseCode
    | LengthByte
    | WrongCode
    | TooShort
    | StatusFlags(sf1: Byte, sf2: Byte)
    | Truncated
    | CountMismatch
    | WrongLength
    | WrongCard
    | WrongOpcode

  // ---------------------------------------------------------------- words

  function WordBytes(ws: seq<Word>): (bytes: Bytes)
    ensures |bytes| == 2 * |ws|
  {
    seq(2 * |ws|, i requires 0 <= i < 2 * |ws| => if i % 2 == 0 then ws[i / 2] % 256 else ws[i / 2] / 256)
  }

  function WordsOf(bytes: Bytes): (ws: seq<Word>)
    requires |bytes| % 2 == 0
    ensures |ws| == |bytes| / 2
  {
    seq(|bytes| / 2, i requires 0 <= i < |bytes| / 2 => U16(bytes[2 * i], bytes[2 * i + 1]))
  }

  lemma WordsRoundTrip(ws: seq<Word>)
    ensures WordsOf(WordBytes(ws)) == ws
  {
  }

  lemma BytesRoundTrip(bytes: Bytes)
    requires |bytes| % 2 == 0
    ensures WordBytes(WordsOf(bytes)) == bytes
  {
    forall i | 0 <= i < |bytes| ensures WordBytes(WordsOf(bytes))[i] == bytes[i] {
      assert i == 2 * (i / 2) + i % 2;
    }
  }

  type Area = (Word, Word)

  function AreaWords(areas: seq<Area>): (ws: seq<Word>)
    ensures |ws| == 2 * |areas|
  {
    seq(2 * |areas|, i requires 0 <= i < 2 * |areas| => if i % 2 == 0 then areas[i / 2].0 else areas[i / 2].1)
  }

  function AreasOf(ws: seq<Word>): (areas: seq<Area>)
    requires |ws| % 2 == 0
    ensures |areas| == |ws| / 2
  {
    seq(|ws| / 2, i requires 0 <= i < |ws| / 2 => (ws[2 * i], ws[2 * i + 1]))
  }

  lemma AreasRoundTrip(areas: seq<Area>)
    ensures AreasOf(AreaWords(areas)) == areas
  {
  }

  lemma AreaWordsRoundTrip(ws: seq<Word>)
    requires |ws| % 2 == 0
    ensures AreaWords(AreasOf(ws)) == ws
  {
    forall i | 0 <= i < |ws| ensures AreaWords(AreasOf(ws))[i] == ws[i] {
      assert i == 2 * (i / 2) + i % 2;
    }
  }

  /** A length or count as the code stores it: its low eight bits. */
  function CountByte(n: nat): Byte {
    n % 256
  }

  // ---------------------------------------------------------------- commands

  function Frame(payload: Bytes): Result<Bytes, FrameError> {
    if |payload| + 1 > 0xFF then Err(TooLong) else Ok([CountByte(|payload| + 1)] + payload)
  }

  /** What a card reads out of an Authentication1 command: IDm, areas, services and C1A. */
  function ReadAuthentication1(frame: Bytes): Option<(Block, seq<Word>, seq<Word>, Block)> {
    if |frame| < 11 || frame[0] as int != |frame| || frame[1] != AUTHENTICATION1 then None
    else
      var n: int := frame[10];
      if |frame| < 12 + 2 * n then None
      else
        var m: int := frame[11 + 2 * n];
        if |frame| != 20 + 2 * n + 2 * m then None
        else Some((frame[2..10], WordsOf(frame[11..11 + 2 * n]), WordsOf(frame[12 + 2 * n..12 + 2 * n + 2 * m]),
                   frame[12 + 2 * n + 2 * m..]))
  }

  /** Little-endian words pushed one by one. */
  method PushWords(payload: Bytes, ws: seq<Word>) returns (out: Bytes)
    ensures out == payload + WordBytes(ws)
  {
    out := payload;
    for i := 0 to |ws|
      invariant out == payload + WordBytes(ws[..i])
    {
      out := out + [ws[i] % 256, ws[i] / 256];
    }
    assert ws[..|ws|] == ws;
  }

  /** The Authentication1 command, pushed piece by piece; the counts are cast to a byte. */
  method Authentication1(idm: Block, areas: seq<Word>, services: seq<Word>, c1a: Block)
    returns (frame: Result<Bytes, FrameError>)
    ensures frame == Frame(Authentication1Payload(idm, areas, services, c1a))
  {
    var payload := [AUTHENTICATION1];
    payload := payload + idm;
    payload := payload + [CountByte(|areas|)];
    payload := PushWords(payload, areas);
    payload := payload + [CountByte(|services|)];
    payload := PushWords(payload, services);
    payload := payload + c1a;
    frame := Frame(payload);
  }

  function Authentication1Payload(idm: Block, areas: seq<Word>, services: seq<Word>, c1a: Block): Bytes {
    [AUTHENTICATION1] + idm + [CountByte(|areas|)] + WordBytes(areas) + [CountByte(|services|)] + WordBytes(services)
      + c1a
  }

  /**
   * The command is sent exactly when there are at most 117 nodes in all, and then the card reads back what was
   * meant: neither count byte was truncated.
   */
  lemma Authentication1Decodes(idm: Block, areas: seq<Word>, services: seq<Word>, c1a: Block)
    ensures var frame := Frame(Authentication1Payload(idm, areas, services, c1a));
      && (frame.Ok? <==> |areas| + |services| <= 117)
      && (frame.Ok? ==> ReadAuthentication1(frame.value) == Some((idm, areas, services, c1a)))
  {
    hide WordBytes, WordsOf;
    var frame := Frame(Authentication1Payload(idm, areas, services, c1a));
    if frame.Ok? {
      assert frame.value == SentFrame(|frame.value|, idm, areas, services, c1a);
      FrameReads(|frame.value|, idm, areas, services, c1a);
    }
  }

  function SentFrame(len: Byte, idm: Block, areas: seq<Word>, services: seq<Word>, c1a: Block): Bytes {
    ([len, AUTHENTICATION1] + idm) + [CountByte(|areas|)] + WordBytes(areas) + [CountByte(|services|)]
      + WordBytes(services) + c1a
  }

  lemma FrameReads(len: Byte, idm: Block, areas: seq<Word>, services: seq<Word>, c1a: Block)
    requires len == 20 + 2 * |areas| + 2 * |services|
    ensures ReadAuthentication1(SentFrame(len, idm, areas, services, c1a)) == Some((idm, areas, services, c1a))
  {
    hide WordBytes, WordsOf;
    var head := [len, AUTHENTICATION1] + idm;
    assert head[2..10] == idm;
    assert CountByte(|areas|) == |areas| && CountByte(|services|) == |services|;
    hide CountByte;
    TwoTables(head, CountByte(|areas|), WordBytes(areas), CountByte(|services|), WordBytes(services), c1a);
    WordsRoundTrip(areas);
    WordsRoundTrip(services);
  }

  /** Where the parts of a frame with two counted tables are. */
  lemma TwoTables(head: Bytes, n: Byte, a: Bytes, m: Byte, s: Bytes, tail: Bytes)
    ensures var f, i := head + [n] + a + [m] + s + tail, |head| + 1; var j := i + |a| + 1;
      && |f| == j + |s| + |tail|
      && (forall k :: 0 <= k < |head| ==> f[k] == head[k])
      && (forall k, l :: 0 <= k <= l <= |head| ==> f[k..l] == head[k..l])
      && f[i - 1] == n && f[i..i + |a|] == a
      && f[j - 1] == m && f[j..j + |s|] == s
      && f[j + |s|..] == tail
  {
    var f, i := head + [n] + a + [m] + s + tail, |head| + 1;
    forall k, l | 0 <= k <= l <= |head| ensures f[k..l] == head[k..l] {
    }
  }

  lemma WordBytesAt(ws: seq<Word>, i: nat)
    requires i < |ws|
    ensures U16(WordBytes(ws)[2 * i], WordBytes(ws)[2 * i + 1]) == ws[i]
  {
  }

  lemma SlicedAt(f: Bytes, a: nat, b: nat, i: nat)
    requires a <= b <= |f| && a + 2 * i + 1 < b
    ensures f[a..b][2 * i] == f[a + 2 * i] && f[a..b][2 * i + 1] == f[a + 2 * i + 1]
  {
  }

  /** A slice that is a word table, word by word. */
  lemma TableInFrame(f: Bytes, at: nat, ws: seq<Word>)
    requires at + 2 * |ws| <= |f| && f[at..at + 2 * |ws|] == WordBytes(ws)
    ensures forall i :: 0 <= i < |ws| ==> f[at + 2 * i] as int + 256 * f[at + 2 * i + 1] as int == ws[i]
  {
    hide WordBytes;
    forall i | 0 <= i < |ws| ensures f[at + 2 * i] as int + 256 * f[at + 2 * i + 1] as int == ws[i] {
      WordBytesAt(ws, i);
      SlicedAt(f, at, at + 2 * |ws|, i);
    }
  }

  /** The command byte by byte: length, code, IDm, and two tables of little-endian words, each behind its count. */
  lemma Authentication1Layout(idm: Block, areas: seq<Word>, services: seq<Word>, c1a: Block)
    requires |areas| + |services| <= 117
    ensures var frame, n, m := Frame(Authentication1Payload(idm, areas, services, c1a)), |areas|, |services|;
      && frame.Ok?
      && var f := frame.value;
      && |f| == 20 + 2 * n + 2 * m && f[0] as int == |f| && f[1] == 0x10 && f[2..10] == idm
      && f[10] as int == n && f[11 + 2 * n] as int == m && f[12 + 2 * n + 2 * m..] == c1a
      && (forall i :: 0 <= i < n ==> f[11 + 2 * i] as int + 256 * f[11 + 2 * i + 1] as int == areas[i])
      && (forall i :: 0 <= i < m ==> f[12 + 2 * n + 2 * i] as int + 256 * f[12 + 2 * n + 2 * i + 1] as int
                                     == services[i])
  {
    hide WordBytes;
    var n, m := |areas|, |services|;
    var f := Frame(Authentication1Payload(idm, areas, services, c1a)).value;
    assert f == SentFrame(20 + 2 * n + 2 * m, idm, areas, services, c1a);
    hide SentFrame, Authentication1Payload;
    SentParts(f, idm, areas, services, c1a);
    TableInFrame(f, 11, areas);
    TableInFrame(f, 12 + 2 * n, services);
  }

  lemma SentParts(f: Bytes, idm: Block, areas: seq<Word>, services: seq<Word>, c1a: Block)
    requires |areas| + |services| <= 117
    requires f == SentFrame(20 + 2 * |areas| + 2 * |services|, idm, areas, services, c1a)
    ensures var n, m := |areas|, |services|;
      && |f| == 20 + 2 * n + 2 * m && f[0] as int == |f| && f[1] == 0x10 && f[2..10] == idm
      && f[10] as int == n && f[11..11 + 2 * n] == WordBytes(areas) && f[11 + 2 * n] as int == m
      && f[12 + 2 * n..12 + 2 * n + 2 * m] == WordBytes(services) && f[12 + 2 * n + 2 * m..] == c1a
  {
    hide WordBytes;
    var head := [20 + 2 * |areas| + 2 * |services|, 0x10] + idm;
    assert head[2..10] == idm;
    TwoTables(head, |areas|, WordBytes(areas), |services|, WordBytes(services), c1a);
  }

  /** The Authentication2 command; it always fits. */
  function Authentication2(idm: Block, c2b: Block): (frame: Bytes)
    ensures frame == [18, 0x12] + idm + c2b
  {
    assert Frame([AUTHENTICATION2] + idm + c2b).value == [18, 0x12] + idm + c2b;
    Frame([AUTHENTICATION2] + idm + c2b).value
  }

  // ---------------------------------------------------------------- responses

  function ExpectResponseCode(rx: Bytes, want: Byte): Option<FrameError> {
    if |rx| < 2 then Some(NoResponseCode)
    else if rx[0] as int != |rx| then Some(LengthByte)
    else if rx[1] != want then Some(WrongCode)
    else None
  }

  lemma CodeExpected(rx: Bytes, want: Byte)
    ensures ExpectResponseCode(rx, want).None? <==> |rx| >= 2 && rx[0] as int == |rx| && rx[1] == want
    ensures ExpectResponseCode(rx, want).Some? ==> !ExpectResponseCode(rx, want).value.StatusFlags?
  {
  }

  /** An answer is its length, the code, the IDm and two blocks. */
  lemma AnswerParts(idm: Block, rx: Bytes)
    ensures forall c1b: Block, c2a: Block :: rx == [26, 0x11] + idm + c1b + c2a <==>
              |rx| == 26 && rx[..2] == [26, 0x11] && rx[2..10] == idm && rx[10..18] == c1b && rx[18..26] == c2a
  {
    forall c1b: Block, c2a: Block
      ensures rx == [26, 0x11] + idm + c1b + c2a <==>
              |rx| == 26 && rx[..2] == [26, 0x11] && rx[2..10] == idm && rx[10..18] == c1b && rx[18..26] == c2a
    {
      OneAnswer(idm, rx, c1b, c2a);
    }
  }

  lemma OneAnswer(idm: Block, rx: Bytes, c1b: Block, c2a: Block)
    ensures rx == [26, 0x11] + idm + c1b + c2a <==>
            |rx| == 26 && rx[..2] == [26, 0x11] && rx[2..10] == idm && rx[10..18] == c1b && rx[18..26] == c2a
  {
    if |rx| == 26 && rx[..2] == [26, 0x11] && rx[2..10] == idm && rx[10..18] == c1b && rx[18..26] == c2a {
      assert rx == rx[..2] + rx[2..10] + rx[10..18] + rx[18..26];
    }
  }

  /** C1B and C2A of an Authentication1 response. */
  function Authentication1Response(idm: Block, rx: Bytes): (r: Result<(Block, Block), FrameError>)
    ensures forall c1b: Block, c2a: Block :: r == Ok((c1b, c2a)) <==> rx == [26, 0x11] + idm + c1b + c2a
    ensures r == Err(WrongCard) <==> |rx| == 26 && rx[..2] == [26, 0x11] && rx[2..10] != idm
    ensures r == Err(NoResponseCode) <==> |rx| < 2
    ensures r == Err(LengthByte) <==> |rx| >= 2 && rx[0] as int != |rx|
    ensures r == Err(WrongCode) <==> |rx| >= 2 && rx[0] as int == |rx| && rx[1] != 0x11
    ensures r == Err(WrongLength) <==> |rx| >= 2 && rx[0] as int == |rx| && rx[1] == 0x11 && |rx| != 26
  {
    AnswerParts(idm, rx);
    var refused := ExpectResponseCode(rx, AUTHENTICATION1 + 1);
    if refused.Some? then Err(refused.value)
    else if |rx| != 26 then Err(WrongLength)
    else if rx[2..10] != idm then Err(WrongCard)
    else
      assert rx[..2] == [rx[0], rx[1]];
      Ok((rx[10..18], rx[18..26]))
  }

  /** The AUTH2 ciphertext. The opcode test can never fail: the response code has been checked. */
  function Authentication2Response(rx: Bytes): (r: Result<Bytes, FrameError>)
    ensures forall auth2: Bytes :: r == Ok(auth2) <==> |auth2| == 32 && rx == [34, 0x13] + auth2
    ensures r != Err(WrongOpcode)
    ensures r == Err(NoResponseCode) <==> |rx| < 2
    ensures r == Err(LengthByte) <==> |rx| >= 2 && rx[0] as int != |rx|
    ensures r == Err(WrongCode) <==> |rx| >= 2 && rx[0] as int == |rx| && rx[1] != 0x13
  {
    var refused := ExpectResponseCode(rx, AUTHENTICATION2 + 1);
    if refused.Some? then Err(refused.value)
    else if |rx| != 34 then Err(WrongLength)
    else if rx[1] != 0x13 then Err(WrongOpcode)
    else
      assert rx[..2] == [rx[0], rx[1]];
      assert rx == rx[..2] + rx[2..];
      Ok(rx[2..])
  }

  // ---------------------------------------------------------------- the code list

  datatype CodeList = CodeList(continueFlag: Byte, areas: seq<Area>, services: seq<Word>)
  {
    /** Short enough for the one-byte frame length. */
    predicate Fits() {
      15 + 4 * |areas| + 2 * |services| <= 255
    }

    /** The response a card with this code list sends. */
    function Encode(idm: Block, sf2: Byte): (rx: Bytes)
      requires Fits()
      ensures |rx| == 15 + 4 * |areas| + 2 * |services|
    {
      [15 + 4 * |areas| + 2 * |services|, REQUEST_CODE_LIST + 1] + idm + [0, sf2, continueFlag, |areas|]
      + WordBytes(AreaWords(areas)) + [|services|] + WordBytes(services)
    }
  }

  lemma WordAt(bytes: Bytes, n: nat, k: nat)
    requires |bytes| == 2 * n && k < n
    ensures WordsOf(bytes)[k] == U16(bytes[2 * k], bytes[2 * k + 1])
  {
    hide U16;
  }

  lemma AreaAt(table: Bytes, m: nat, k: nat)
    requires |table| == 4 * m && k < m
    ensures AreasOf(WordsOf(table))[k] == (U16(table[4 * k], table[4 * k + 1]), U16(table[4 * k + 2], table[4 * k + 3]))
  {
    WordAt(table, 2 * m, 2 * k);
    WordAt(table, 2 * m, 2 * k + 1);
    hide U16, WordsOf;
  }

  /** The areas of a table, one chunk of four bytes at a time. */
  method ReadAreas(table: Bytes) returns (areas: seq<Area>)
    requires |table| % 4 == 0
    ensures areas == AreasOf(WordsOf(table))
  {
    hide U16, AreasOf, WordsOf;
    areas := [];
    var i := 0;
    while i < |table|
      invariant 0 <= i <= |table| && i % 4 == 0
      invariant |areas| == i / 4
      invariant forall k :: 0 <= k < |areas| ==> areas[k] == AreasOf(WordsOf(table))[k]
    {
      AreaAt(table, |table| / 4, i / 4);
      areas := areas + [(U16(table[i], table[i + 1]), U16(table[i + 2], table[i + 3]))];
      i := i + 4;
    }
  }

  /** What the decoder accepts, field by field. */
  ghost predicate IsCodeList(rx: Bytes, list: CodeList) {
    && list.Fits()
    && |rx| >= 12
    && rx == list.Encode(rx[2..10], rx[11])
  }

  method RequestCodeList(rx: Bytes) returns (r: Result<CodeList, FrameError>)
    ensures r.Ok? ==> IsCodeList(rx, r.value)
    ensures forall list: CodeList, idm: Block, sf2: Byte :: list.Fits() && rx == list.Encode(idm, sf2) ==> r == Ok(list)
    ensures r.Err? && r.error.StatusFlags? <==>
            |rx| >= 12 && rx[0] as int == |rx| && rx[1] == 0x1B && rx[10] != 0
    ensures r.Err? && r.error.StatusFlags? ==> r.error == StatusFlags(rx[10], rx[11])
  {
    hide CodeList.Encode, WordsOf, AreasOf, IsCodeList, ExpectResponseCode;
    CodeExpected(rx, REQUEST_CODE_LIST + 1);
    forall list: CodeList, idm: Block, sf2: Byte | list.Fits() && rx == list.Encode(idm, sf2)
      ensures ReadsAs(rx, list)
    {
      EncodedReads(rx, list, idm, sf2);
    }
    var refused := ExpectResponseCode(rx, REQUEST_CODE_LIST + 1);
    if refused.Some? { return Err(refused.value); }
    if |rx| < 12 { return Err(TooShort); }
    var sf1, sf2 := rx[10], rx[11];
    if sf1 != 0 { return Err(StatusFlags(sf1, sf2)); }
    if |rx| < 15 { return Err(TooShort); }
    var continueFlag := rx[12];
    var areaCount: int := rx[13];
    var off := 14;
    if |rx| < off + areaCount * 4 + 1 { return Err(Truncated); }
    var areas := ReadAreas(rx[off..off + areaCount * 4]);
    off := off + areaCount * 4;
    var serviceCount: int := rx[off];
    off := off + 1;
    if |rx| != off + serviceCount * 2 { return Err(CountMismatch); }
    var services := WordsOf(rx[off..off + serviceCount * 2]);
    var list := CodeList(continueFlag, areas, services);
    ReadEncodes(rx, list);
    return Ok(list);
  }

  /** The reading of a response that the cursor makes. */
  ghost predicate ReadsAs(rx: Bytes, list: CodeList) {
    var n, m := |list.areas|, |list.services|;
    && |rx| == 15 + 4 * n + 2 * m <= 255
    && rx[0] as int == |rx| && rx[1] == REQUEST_CODE_LIST + 1 && rx[10] == 0
    && rx[12] == list.continueFlag && rx[13] as int == n
    && AreasOf(WordsOf(rx[14..14 + 4 * n])) == list.areas
    && rx[14 + 4 * n] as int == m
    && WordsOf(rx[15 + 4 * n..15 + 4 * n + 2 * m]) == list.services
  }

  /** What is accepted, byte by byte: flags, the continue flag, and two tables, each behind its count. */
  lemma CodeListLayout(rx: Bytes, list: CodeList)
    requires IsCodeList(rx, list)
    ensures var n, m := |list.areas|, |list.services|;
      && |rx| == 15 + 4 * n + 2 * m && rx[0] as int == |rx| && rx[1] == 0x1B && rx[10] == 0
      && rx[12] == list.continueFlag && rx[13] as int == n && rx[14 + 4 * n] as int == m
      && (forall i :: 0 <= i < n ==>
            && rx[14 + 4 * i] as int + 256 * rx[15 + 4 * i] as int == list.areas[i].0
            && rx[16 + 4 * i] as int + 256 * rx[17 + 4 * i] as int == list.areas[i].1)
      && (forall i :: 0 <= i < m ==> rx[15 + 4 * n + 2 * i] as int + 256 * rx[15 + 4 * n + 2 * i + 1] as int
                                     == list.services[i])
  {
    hide CodeList.Encode, AreasOf, WordsOf, U16;
    EncodedReads(rx, list, rx[2..10], rx[11]);
    var n, m := |list.areas|, |list.services|;
    var table, words := rx[14..14 + 4 * n], rx[15 + 4 * n..15 + 4 * n + 2 * m];
    forall i | 0 <= i < n
      ensures list.areas[i] == (U16(rx[14 + 4 * i], rx[15 + 4 * i]), U16(rx[16 + 4 * i], rx[17 + 4 * i]))
    {
      AreaAt(table, n, i);
    }
    forall i | 0 <= i < m ensures list.services[i] == U16(rx[15 + 4 * n + 2 * i], rx[15 + 4 * n + 2 * i + 1]) {
      WordAt(words, m, i);
    }
    WordsSpelled(rx);
  }

  lemma WordsSpelled(rx: Bytes)
    ensures forall i, j :: 0 <= i < |rx| && 0 <= j < |rx| ==> U16(rx[i], rx[j]) == rx[i] as int + 256 * rx[j] as int
  {
  }

  lemma EncodedReads(rx: Bytes, list: CodeList, idm: Block, sf2: Byte)
    requires list.Fits() && rx == list.Encode(idm, sf2)
    ensures ReadsAs(rx, list)
  {
    hide WordBytes, WordsOf, AreaWords, AreasOf;
    var head := [|rx|, REQUEST_CODE_LIST + 1] + idm + [0, sf2, list.continueFlag];
    var n, m := |list.areas|, |list.services|;
    assert rx == head + [n] + WordBytes(AreaWords(list.areas)) + [m] + WordBytes(list.services) + [];
    TwoTables(head, n, WordBytes(AreaWords(list.areas)), m, WordBytes(list.services), []);
    WordsRoundTrip(AreaWords(list.areas));
    AreasRoundTrip(list.areas);
    WordsRoundTrip(list.services);
  }

  lemma ReadEncodes(rx: Bytes, list: CodeList)
    requires ReadsAs(rx, list)
    ensures IsCodeList(rx, list)
  {
    hide WordBytes, WordsOf, AreaWords, AreasOf;
    var i := 14 + 4 * |list.areas|;
    BytesRoundTrip(rx[14..i]);
    AreaWordsRoundTrip(WordsOf(rx[14..i]));
    BytesRoundTrip(rx[i + 1..]);
    assert rx[i + 1..] == rx[i + 1..i + 1 + 2 * |list.services|];
    OneTable(rx, 14, i);
    HeadParts(rx);
  }

  lemma OneTable(rx: Bytes, a: nat, i: nat)
    requires a <= i < |rx|
    ensures rx == rx[..a] + rx[a..i] + [rx[i]] + rx[i + 1..]
  {
  }

  lemma HeadParts(rx: Bytes)
    requires |rx| >= 14
    ensures rx[..14] == [rx[0], rx[1]] + rx[2..10] + [rx[10], rx[11], rx[12], rx[13]]
  {
  }
}
