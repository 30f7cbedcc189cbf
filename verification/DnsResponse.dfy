/** The in-place response builders of components/dns_proxy/dns_wire.c, and an independent
    reader of resource records with name compression (sections 4.1.3 and 4.1.4 of
    RFC 1035) to say what a receiver makes of their output. */
module DnsResponse {
  import opened Words
  import opened Options
  import opened CStrings
  import opened DnsWire

  const TYPE_A: nat := 1
  const TYPE_AAAA: nat := 28

  // --------------------------------------------------------- transaction ids

  function SetTxid(m: seq<byte>, txid: nat): (r: seq<byte>)
    requires |m| >= 2 && txid < M16
    ensures |r| == |m| && U16(r[0], r[1]) == txid && r[2..] == m[2..]
  {
    m[0 := txid / 256][1 := txid % 256]
  }

  method SetTxidInPlace(buf: array<byte>, txid: nat)
    requires buf.Length >= 2 && txid < M16
    modifies buf
    ensures buf[..] == SetTxid(old(buf[..]), txid)
  {
    buf[0] := txid / 256;
    buf[1] := txid % 256;
  }

  // --------------------------------------------------------- error responses

  /** (b | 0x80) & ~0x06 */
  function ResponseFlags(b: byte): (r: nat)
    ensures r < 256
  {
    assert Pow2(8) == 256;
    OrBound(b, 0x80, 8);
    AndBound(Or(b, 0x80), 0xFFFF_FFF9);
    And(Or(b, 0x80), 0xFFFF_FFF9)
  }

  /** 0x80 | (rcode & 0x0F) */
  function RcodeFlags(rcode: byte): (r: nat)
    ensures r < 256
  {
    assert Pow2(8) == 256;
    AndBound(rcode, 0x0F);
    OrBound(0x80, And(rcode, 0x0F), 8);
    Or(0x80, And(rcode, 0x0F))
  }

  /** The message dns_wire_make_error_response leaves behind. */
  function ErrorResponse(m: seq<byte>, rcode: byte): (r: seq<byte>)
    ensures |r| == |m|
  {
    if |m| < HEADER_LEN then m else m[2 := ResponseFlags(m[2])][3 := RcodeFlags(rcode)]
  }

  method MakeErrorResponse(buf: array<byte>, len: nat, rcode: byte)
    requires len <= buf.Length
    modifies buf
    ensures buf[..len] == ErrorResponse(old(buf[..len]), rcode)
    ensures buf[len..] == old(buf[len..])
  {
    if len < HEADER_LEN {
      return;
    }
    buf[2] := ResponseFlags(buf[2]);
    buf[3] := RcodeFlags(rcode);
  }

  lemma FlagMask(k: nat)
    requires k < 8
    ensures Bit(0xFFFF_FFF9, k) == (k != 1 && k != 2)
    ensures Bit(0x80, k) == (k == 7)
    ensures Bit(0x0F, k) == (k < 4)
  {
    assert Bit(0xFFFF_FFF9, 0) && !Bit(0xFFFF_FFF9, 1) && !Bit(0xFFFF_FFF9, 2) && Bit(0xFFFF_FFF9, 3);
    assert Bit(0xFFFF_FFF9, 4) && Bit(0xFFFF_FFF9, 5) && Bit(0xFFFF_FFF9, 6) && Bit(0xFFFF_FFF9, 7);
    assert !Bit(0x80, 0) && !Bit(0x80, 1) && !Bit(0x80, 2) && !Bit(0x80, 3);
    assert !Bit(0x80, 4) && !Bit(0x80, 5) && !Bit(0x80, 6) && Bit(0x80, 7);
    assert Bit(0x0F, 0) && Bit(0x0F, 1) && Bit(0x0F, 2) && Bit(0x0F, 3);
    assert !Bit(0x0F, 4) && !Bit(0x0F, 5) && !Bit(0x0F, 6) && !Bit(0x0F, 7);
  }

  lemma ResponseFlagBits(b: byte, k: nat)
    requires k < 8
    ensures Bit(ResponseFlags(b), k) == (k == 7 || (k != 1 && k != 2 && Bit(b, k)))
  {
    FlagMask(k);
    BitOfOr(b, 0x80, k);
    BitOfAnd(Or(b, 0x80), 0xFFFF_FFF9, k);
  }

  /** Section 4.1.1: QR and RA set, AA, TC, Z and the extension bits clear, OPCODE and RD
      echoed, RCODE as asked; id, counts and all sections untouched. */
  lemma ErrorResponseHeader(m: seq<byte>, rcode: byte, k: nat)
    requires |m| >= HEADER_LEN && k < 8
    ensures var r := ErrorResponse(m, rcode);
            && Bit(r[2], k) == (k == 7 || (k != 1 && k != 2 && Bit(m[2], k)))
            && Bit(r[3], k) == (k == 7 || (k < 4 && Bit(rcode, k)))
            && r[..2] == m[..2] && r[4..] == m[4..]
  {
    FlagMask(k);
    ResponseFlagBits(m[2], k);
    BitOfAnd(rcode, 0x0F, k);
    BitOfOr(0x80, And(rcode, 0x0F), k);
  }

  lemma LowNibble(rcode: byte)
    requires rcode < 16
    ensures And(rcode, 0x0F) == rcode
  {
    assert Pow2(4) == 16;
    MaskIsModulo(rcode, 4);
  }

  lemma TopBitOr(x: nat)
    requires x < 128
    ensures Or(0x80, x) == 128 + x
  {
    assert Pow2(7) == 128;
    DoubledIsProduct(1, 7);
    OrDisjoint(1, x, 7);
  }

  lemma RcodeByte(rcode: byte)
    requires rcode < 16
    ensures RcodeFlags(rcode) == 128 + rcode
  {
    LowNibble(rcode);
    TopBitOr(rcode);
  }

  /** The flags of a reply to m: QR set, AA and TC clear, OPCODE and RD as in m. */
  ghost predicate ReplyFlags(r: seq<byte>, m: seq<byte>)
    requires |r| >= 12 && |m| >= 12
  {
    && Bit(r[2], 7) && !Bit(r[2], 2) && !Bit(r[2], 1)
    && Bit(r[2], 0) == Bit(m[2], 0)
    && forall k: nat :: 3 <= k < 7 ==> Bit(r[2], k) == Bit(m[2], k)
  }

  lemma ResponseFlagsReply(r: seq<byte>, m: seq<byte>)
    requires |r| >= 12 && |m| >= 12 && r[2] == ResponseFlags(m[2])
    ensures ReplyFlags(r, m)
  {
    forall k: nat | k < 8 ensures Bit(r[2], k) == (k == 7 || (k != 1 && k != 2 && Bit(m[2], k))) {
      ResponseFlagBits(m[2], k);
    }
  }

  /** An error reply to m, to a receiver: QR set, RA set, the response code, and all other bytes
      those of m. A message without a header comes back as it was. */
  ghost predicate IsErrorReply(r: seq<byte>, m: seq<byte>, rcode: nat) {
    if |m| < 12 then r == m
    else |r| == |m| && r[..2] == m[..2] && r[4..] == m[4..] && ReplyFlags(r, m) && r[3] == 128 + rcode
  }

  lemma ErrorResponseIsReply(m: seq<byte>, rcode: byte)
    requires rcode < 16
    ensures IsErrorReply(ErrorResponse(m, rcode), m, rcode)
  {
    if |m| >= 12 {
      RcodeByte(rcode);
      ErrorResponseHeader(m, rcode, 0);
      ResponseFlagsReply(ErrorResponse(m, rcode), m);
    }
  }

  lemma {:induction false} LabelsLocal(m: seq<byte>, n: seq<byte>, pos: nat)
    requires |m| == |n| && forall i :: pos <= i < |m| ==> m[i] == n[i]
    ensures LabelsAt(m, pos) == LabelsAt(n, pos)
    ensures LabelsAt(m, pos).Some? ==> pos < NameEnd(m, pos) == NameEnd(n, pos)
    decreases |m| - pos
  {
    if pos < |m| && 0 < m[pos] < 64 && pos + 1 + m[pos] <= |m| {
      LabelsLocal(m, n, pos + 1 + m[pos]);
      assert m[pos + 1..pos + 1 + m[pos]] == n[pos + 1..pos + 1 + m[pos]];
    }
  }

  /** The parser looks at the id, QDCOUNT and what follows the header, nothing else. */
  lemma ParseLocal(m: seq<byte>, n: seq<byte>)
    requires |m| == |n|
    requires forall i :: 0 <= i < |m| && (i < 2 || 4 <= i < 6 || HEADER_LEN <= i) ==> m[i] == n[i]
    ensures Parse(m) == Parse(n)
    ensures |m| >= HEADER_LEN ==> LabelsAt(m, HEADER_LEN) == LabelsAt(n, HEADER_LEN)
  {
    if |m| >= HEADER_LEN {
      LabelsLocal(m, n, HEADER_LEN);
    }
  }

  /** An error response asks the same question, with the same id, as the query it echoes. */
  lemma ErrorResponseKeepsQuestion(m: seq<byte>, rcode: byte)
    ensures Parse(ErrorResponse(m, rcode)) == Parse(m)
  {
    ParseLocal(m, ErrorResponse(m, rcode));
  }

  // ------------------------------------------------------------ zero answers

  function RdLength(qtype: nat): nat {
    if qtype == TYPE_A then 4 else if qtype == TYPE_AAAA then 16 else 0
  }

  function Zeros(n: nat): (r: seq<byte>)
    ensures |r| == n && forall i :: 0 <= i < n ==> r[i] == 0
  {
    seq(n, _ => 0)
  }

  /** The appended record: pointer to offset 12, type, class IN, 60 s, zero address. */
  function AnswerRecord(qtype: nat, rdlength: nat): seq<byte>
    requires qtype < M16 && rdlength < M16
  {
    COMPRESSED_NAME + AnswerFields(qtype, rdlength) + Zeros(rdlength)
  }

  const COMPRESSED_NAME: seq<byte> := [0xC0, 0x0C]

  function AnswerFields(qtype: nat, rdlength: nat): (r: seq<byte>)
    requires qtype < M16 && rdlength < M16
    ensures |r| == 10
  {
    [qtype / 256, qtype % 256, 0, 1, 0, 0, 0, 60, rdlength / 256, rdlength % 256]
  }

  function AnswerHeader(m: seq<byte>): (r: seq<byte>)
    requires |m| >= HEADER_LEN
    ensures |r| == |m|
  {
    m[2 := ResponseFlags(m[2])][3 := 0x80][6 := 0][7 := 1][8 := 0][9 := 0][10 := 0][11 := 0]
  }

  function ZeroAnswer(m: seq<byte>, questionEnd: nat, cap: nat, qtype: nat): Option<seq<byte>>
    requires HEADER_LEN <= questionEnd <= |m| && qtype < M16
  {
    if RdLength(qtype) == 0 || questionEnd + 12 + RdLength(qtype) > cap then None
    else Some(AnswerHeader(m[..questionEnd]) + AnswerRecord(qtype, RdLength(qtype)))
  }

  method MakeZeroAnswer(buf: array<byte>, questionEnd: nat, cap: nat, qtype: nat) returns (newLen: nat)
    requires HEADER_LEN <= questionEnd <= buf.Length && cap <= buf.Length && qtype < M16
    modifies buf
    ensures var r := ZeroAnswer(old(buf[..]), questionEnd, cap, qtype);
            if r.None? then newLen == 0 && buf[..] == old(buf[..])
            else newLen == |r.value| <= cap && newLen > 0 && buf[..newLen] == r.value
  {
    var rdlength;
    if qtype == TYPE_A {
      rdlength := 4;
    } else if qtype == TYPE_AAAA {
      rdlength := 16;
    } else {
      return 0;
    }
    var answerLen := 2 + 2 + 2 + 4 + 2 + rdlength;
    if questionEnd + answerLen > cap {
      return 0;
    }
    AppendRecord(buf, questionEnd, qtype, rdlength);
    ghost var end := questionEnd + answerLen;
    ghost var appended := buf[..end];
    buf[2] := ResponseFlags(buf[2]);
    buf[3] := 0x80;
    buf[6], buf[7] := 0, 1;
    buf[8], buf[9] := 0, 0;
    buf[10], buf[11] := 0, 0;
    assert buf[..end] == AnswerHeader(appended);
    AnswerHeaderOfPrefix(old(buf[..questionEnd]), AnswerRecord(qtype, rdlength));
    return questionEnd + answerLen;
  }

  lemma AnswerHeaderOfPrefix(m: seq<byte>, tail: seq<byte>)
    requires |m| >= HEADER_LEN
    ensures AnswerHeader(m + tail) == AnswerHeader(m) + tail
  {
  }

  method AppendRecord(buf: array<byte>, start: nat, qtype: nat, rdlength: nat)
    requires start + 12 + rdlength <= buf.Length && qtype < M16 && rdlength < M16
    modifies buf
    ensures buf[..start + 12 + rdlength] == old(buf[..start]) + AnswerRecord(qtype, rdlength)
  {
    ghost var before := buf[..start];
    AppendFixed(buf, start, qtype, rdlength);
    assert buf[..start + 12] == buf[..start] + buf[start..start + 2] + buf[start + 2..start + 12];
    ZeroFill(buf, start + 12, rdlength);
  }

  method AppendFixed(buf: array<byte>, start: nat, qtype: nat, rdlength: nat)
    requires start + 12 <= buf.Length && qtype < M16 && rdlength < M16
    modifies buf
    ensures buf[..start] == old(buf[..start])
    ensures buf[start..start + 2] == COMPRESSED_NAME
    ensures buf[start + 2..start + 12] == AnswerFields(qtype, rdlength)
  {
    var pos := start;
    buf[pos], buf[pos + 1] := 0xC0, 0x0C;
    buf[pos + 2], buf[pos + 3] := qtype / 256, qtype % 256;
    buf[pos + 4], buf[pos + 5] := 0, 1;
    buf[pos + 6], buf[pos + 7], buf[pos + 8], buf[pos + 9] := 0, 0, 0, 0x3C;
    buf[pos + 10], buf[pos + 11] := rdlength / 256, rdlength % 256;
  }

  /** memset(buf + start, 0, n) */
  method ZeroFill(buf: array<byte>, start: nat, n: nat)
    requires start + n <= buf.Length
    modifies buf
    ensures buf[..start + n] == old(buf[..start]) + Zeros(n)
  {
    for i := 0 to n
      invariant buf[..start + i] == old(buf[..start]) + Zeros(i)
    {
      buf[start + i] := 0;
      assert buf[..start + i + 1] == buf[..start + i] + [0];
    }
  }

  // ----------------------------------------- an independent RFC 1035 reader

  datatype WireName = WireName(labels: seq<Label>, next: nat)

  /** Section 4.1.4: labels up to a zero octet, or a pointer to a name that starts
      strictly earlier than `bound`. */
  function NameAt(m: seq<byte>, pos: nat, bound: nat): Option<WireName>
    decreases bound, |m| - pos
  {
    if pos >= |m| then None
    else if m[pos] == 0 then Some(WireName([], pos + 1))
    else if m[pos] < 64 then
      var next := pos + 1 + m[pos];
      if next > |m| then None
      else
        var rest := NameAt(m, next, bound);
        if rest.None? then None
        else Some(WireName([m[pos + 1..next]] + rest.value.labels, rest.value.next))
    else if m[pos] >= 192 && pos + 1 < |m| then
      var target := U16(m[pos] - 192, m[pos + 1]);
      if target >= bound then None
      else
        var there := NameAt(m, target, target);
        if there.None? then None else Some(WireName(there.value.labels, pos + 2))
    else None
  }

  datatype Record = Record(name: seq<Label>, rtype: nat, rclass: nat, ttl: nat, rdata: seq<byte>, next: nat)

  /** Section 4.1.3. */
  function RecordAt(m: seq<byte>, pos: nat): Option<Record> {
    var name := NameAt(m, pos, pos);
    if name.None? then None else RecordBody(m, name.value.labels, name.value.next)
  }

  function RecordBody(m: seq<byte>, labels: seq<Label>, p: nat): Option<Record> {
    if p + 10 > |m| then None
    else
      var rdlength := U16(m[p + 8], m[p + 9]);
      if p + 10 + rdlength > |m| then None
      else Some(Record(labels, U16(m[p], m[p + 1]), U16(m[p + 2], m[p + 3]),
                       U16(m[p + 4], m[p + 5]) * M16 + U16(m[p + 6], m[p + 7]),
                       m[p + 10..p + 10 + rdlength], p + 10 + rdlength))
  }

  /** On an uncompressed name the reader and the query parser agree. */
  lemma {:induction false} ReaderAgrees(m: seq<byte>, pos: nat, bound: nat)
    requires LabelsAt(m, pos).Some?
    ensures NameAt(m, pos, bound) == Some(WireName(LabelsAt(m, pos).value, NameEnd(m, pos)))
    decreases |m| - pos
  {
    if m[pos] != 0 {
      ReaderAgrees(m, pos + 1 + m[pos], bound);
    }
  }

  /** Bytes past the end of a name do not change it. */
  lemma {:induction false} LabelsOfPrefix(m: seq<byte>, n: seq<byte>, pos: nat, len: nat)
    requires LabelsAt(m, pos).Some? && NameEnd(m, pos) <= len <= |m| && len <= |n| && m[..len] == n[..len]
    ensures LabelsAt(n, pos) == LabelsAt(m, pos) && NameEnd(n, pos) == NameEnd(m, pos)
    decreases |m| - pos
  {
    NameEndAfter(m, pos);
    assert m[pos] == m[..len][pos] == n[..len][pos];
    if m[pos] != 0 {
      var next := pos + 1 + m[pos];
      NameEndAfter(m, next);
      LabelsOfPrefix(m, n, next, len);
      assert m[pos + 1..next] == m[..len][pos + 1..next];
      assert n[pos + 1..next] == n[..len][pos + 1..next];
    }
  }

  lemma {:induction false} NameEndAfter(m: seq<byte>, pos: nat)
    requires LabelsAt(m, pos).Some?
    ensures pos < NameEnd(m, pos)
    decreases |m| - pos
  {
    if m[pos] != 0 {
      NameEndAfter(m, pos + 1 + m[pos]);
    }
  }

  /** A message cut right after its question parses to the same question. */
  lemma ParseCut(m: seq<byte>, q: Question)
    requires Parse(m) == Some(q)
    ensures HEADER_LEN <= q.end <= |m| && Parse(m[..q.end]) == Some(q)
    ensures LabelsAt(m[..q.end], HEADER_LEN) == LabelsAt(m, HEADER_LEN)
  {
    QuestionEndBound(m);
    LabelsOfPrefix(m, m[..q.end], HEADER_LEN, q.end);
  }

  /** ... and so does any message that continues after it. */
  lemma ParseExtended(m: seq<byte>, tail: seq<byte>)
    requires Parse(m).Some?
    ensures Parse(m + tail) == Parse(m)
    ensures LabelsAt(m + tail, HEADER_LEN) == LabelsAt(m, HEADER_LEN)
  {
    QuestionEndBound(m);
    assert (m + tail)[..|m|] == m[..|m|];
    LabelsOfPrefix(m, m + tail, HEADER_LEN, |m|);
  }

  /** The zero-address reply to the query m with question q, to a receiver: QR and RA set, no
      error, the same question under the same id and QDCOUNT, and one answer record for that
      very name, of the query's type, class IN, 60 seconds, all zeros, ending the message. */
  ghost predicate IsZeroReply(r: seq<byte>, m: seq<byte>, q: Question) {
    && |m| >= 12 && |r| >= 12 && LabelsAt(m, 12).Some?
    && ReplyFlags(r, m) && r[3] == 128
    && Parse(r) == Some(q)
    && r[4..6] == m[4..6]
    && U16(r[6], r[7]) == 1 && U16(r[8], r[9]) == 0 && U16(r[10], r[11]) == 0
    && RecordAt(r, q.end) ==
       Some(Record(LabelsAt(m, 12).value, q.qtype, 1, 60, Zeros(if q.qtype == 1 then 4 else 16), |r|))
  }

  /** What the zero answer to a parsed A or AAAA query is to a receiver: never refused in a
      512-byte buffer, at most 300 bytes, the same question under the same id, and one
      record for that very name ending exactly at the end of the message. */
  lemma ZeroAnswerIsCorrect(buf: seq<byte>, n: nat, q: Question)
    requires n <= |buf| == 512 && Parse(buf[..n]) == Some(q)
    requires q.qtype == 1 || q.qtype == 28
    ensures q.end <= |buf| && q.qtype < M16 && HEADER_LEN <= q.end
    ensures var r := ZeroAnswer(buf, q.end, MAX_MSG_LEN, q.qtype);
            && r.Some?
            && |r.value| <= 300
            && IsZeroReply(r.value, buf[..n], q)
  {
    var rdlength := if q.qtype == TYPE_A then 4 else 16;
    QuestionAlone(buf, n, q);
    var r := AnswerHeader(buf[..q.end]) + AnswerRecord(q.qtype, rdlength);
    AnsweredQuestion(buf[..q.end], q, rdlength, LabelsAt(buf[..n], HEADER_LEN).value, r);
    AnswerCounts(buf[..q.end], AnswerRecord(q.qtype, rdlength));
    assert buf[..q.end][4..6] == buf[4..6] && buf[..q.end][2] == buf[..n][2];
    assert buf[..n][4..6] == buf[4..6];
    ResponseFlagsReply(r, buf[..n]);
  }

  /** Every other type is refused. */
  lemma NoZeroAnswer(buf: seq<byte>, q: Question)
    requires |buf| == 512 && HEADER_LEN <= q.end <= |buf| && q.qtype < M16
    requires q.qtype != 1 && q.qtype != 28
    ensures ZeroAnswer(buf, q.end, MAX_MSG_LEN, q.qtype) == None
  {
  }

  /** The message up to the end of its question is a message with that question. */
  lemma QuestionAlone(buf: seq<byte>, n: nat, q: Question)
    requires n <= |buf| == MAX_MSG_LEN && Parse(buf[..n]) == Some(q)
    ensures HEADER_LEN < q.end <= n && q.end <= 272 && q.qtype < M16
    ensures Parse(buf[..q.end]) == Some(q) && LabelsAt(buf[..q.end], HEADER_LEN) == LabelsAt(buf[..n], HEADER_LEN)
    ensures LabelsAt(buf[..n], HEADER_LEN).Some?
  {
    QuestionEndBound(buf[..n]);
    ParseCut(buf[..n], q);
    assert buf[..n][..q.end] == buf[..q.end];
  }

  lemma AnsweredQuestion(asked: seq<byte>, q: Question, rdlength: nat, labels: seq<Label>, r: seq<byte>)
    requires Parse(asked) == Some(q) && q.end == |asked| && LabelsAt(asked, HEADER_LEN) == Some(labels)
    requires q.qtype < M16 && rdlength < M16 && |asked| > HEADER_LEN
    requires r == AnswerHeader(asked) + AnswerRecord(q.qtype, rdlength)
    ensures Parse(r) == Some(q)
    ensures RecordAt(r, q.end) == Some(Record(labels, q.qtype, 1, 60, Zeros(rdlength), |r|))
  {
    AnsweredReparses(asked, AnswerRecord(q.qtype, rdlength), r);
    AnswerReadsBack(AnswerHeader(asked), q.qtype, rdlength, labels, r);
  }

  /** Marking a message as answered and appending to it leaves its question readable. */
  lemma AnsweredReparses(asked: seq<byte>, tail: seq<byte>, r: seq<byte>)
    requires Parse(asked).Some? && r == AnswerHeader(asked) + tail
    ensures Parse(r) == Parse(asked) && LabelsAt(r, HEADER_LEN) == LabelsAt(asked, HEADER_LEN)
  {
    ParseLocal(asked, AnswerHeader(asked));
    ParseExtended(AnswerHeader(asked), tail);
  }

  lemma AnswerCounts(asked: seq<byte>, tail: seq<byte>)
    requires |asked| >= HEADER_LEN
    ensures var r := AnswerHeader(asked) + tail;
            && r[4..6] == asked[4..6] && r[2] == ResponseFlags(asked[2]) && r[3] == 128
            && r[6] == 0 && r[7] == 1 && r[8] == 0 && r[9] == 0 && r[10] == 0 && r[11] == 0
  {
  }

  lemma AnswerReadsBack(head: seq<byte>, qtype: nat, rdlength: nat, labels: seq<Label>, r: seq<byte>)
    requires |head| > HEADER_LEN && qtype < M16 && rdlength < M16
    requires r == head + AnswerRecord(qtype, rdlength)
    requires LabelsAt(r, HEADER_LEN) == Some(labels)
    ensures RecordAt(r, |head|) == Some(Record(labels, qtype, 1, 60, Zeros(rdlength), |r|))
  {
    var named := head + COMPRESSED_NAME;
    assert r == named + AnswerFields(qtype, rdlength) + Zeros(rdlength);
    assert r[|head|] == named[|head|] == 0xC0 && r[|head| + 1] == named[|head| + 1] == 0x0C;
    PointerToQuestion(r, |head|);
    BodyOf(named, qtype, rdlength, labels, r);
  }

  lemma BodyOf(before: seq<byte>, qtype: nat, rdlength: nat, labels: seq<Label>, m: seq<byte>)
    requires qtype < M16 && rdlength < M16
    requires m == before + AnswerFields(qtype, rdlength) + Zeros(rdlength)
    ensures RecordBody(m, labels, |before|) == Some(Record(labels, qtype, 1, 60, Zeros(rdlength), |m|))
  {
    var fixed, p := AnswerFields(qtype, rdlength), |before|;
    assert forall i :: 0 <= i < 10 ==> m[p + i] == fixed[i];
    assert m[p] == qtype / 256 && m[p + 1] == qtype % 256 && m[p + 2] == 0 && m[p + 3] == 1;
    assert m[p + 4] == 0 && m[p + 5] == 0 && m[p + 6] == 0 && m[p + 7] == 60;
    assert m[p + 8] == rdlength / 256 && m[p + 9] == rdlength % 256;
    assert m[p + 10..p + 10 + rdlength] == Zeros(rdlength);
  }

  lemma PointerToQuestion(m: seq<byte>, pos: nat)
    requires HEADER_LEN < pos && pos + 1 < |m| && m[pos] == 0xC0 && m[pos + 1] == 0x0C
    requires LabelsAt(m, HEADER_LEN).Some?
    ensures RecordAt(m, pos) == RecordBody(m, LabelsAt(m, HEADER_LEN).value, pos + 2)
  {
    ReaderAgrees(m, HEADER_LEN, HEADER_LEN);
    assert U16(m[pos] - 192, m[pos + 1]) == HEADER_LEN;
  }

  // ------------------------------------------------- whole messages (4.1)

  /** Offset after n questions. */
  function AfterQuestions(m: seq<byte>, pos: nat, n: nat): Option<nat>
    decreases n
  {
    if n == 0 then Some(pos)
    else
      var name := NameAt(m, pos, pos);
      if name.None? || name.value.next + 4 > |m| then None
      else AfterQuestions(m, name.value.next + 4, n - 1)
  }

  /** Offset after n resource records. */
  function AfterRecords(m: seq<byte>, pos: nat, n: nat): Option<nat>
    decreases n
  {
    if n == 0 then Some(pos)
    else
      var record := RecordAt(m, pos);
      if record.None? then None else AfterRecords(m, record.value.next, n - 1)
  }

  /** The four sections hold what the header counts, and nothing follows them. */
  predicate WellFormed(m: seq<byte>) {
    && |m| >= HEADER_LEN
    && var answers := AfterQuestions(m, HEADER_LEN, U16(m[4], m[5]));
       && answers.Some?
       && AfterRecords(m, answers.value, U16(m[6], m[7]) + U16(m[8], m[9]) + U16(m[10], m[11])) == Some(|m|)
  }

  /** From the end of the question on: the bytes a reader that expects more questions meets. */
  lemma AnswerTail(head: seq<byte>, qtype: nat, rdlength: nat, r: seq<byte>)
    requires qtype < M16 && (rdlength == 4 || rdlength == 16)
    requires r == head + AnswerRecord(qtype, rdlength)
    ensures var p := |head| + 6;
            && |r| == p + 6 + rdlength
            && r[|head|] == 0xC0 && r[|head| + 1] == 0x0C
            && r[p] == 0 && r[p + 5] == rdlength && r[p + 9] == 0 && (rdlength == 16 ==> r[p + 10] == 0)
  {
    var e, fields := |head|, AnswerFields(qtype, rdlength);
    var named := head + COMPRESSED_NAME;
    assert r == named + fields + Zeros(rdlength);
    assert forall i :: 0 <= i < 10 ==> r[e + 2 + i] == fields[i];
    assert r[e + 15] == Zeros(rdlength)[3];
    assert rdlength == 16 ==> r[e + 16] == Zeros(rdlength)[4];
    assert r[e] == named[e] && r[e + 1] == named[e + 1];
  }

  /** A reader that expects a second question takes the answer's name and type for it, and
      then cannot come out at the end of the message. */
  lemma SecondQuestionMisreads(head: seq<byte>, qtype: nat, rdlength: nat, r: seq<byte>, more: nat)
    requires |head| > HEADER_LEN && qtype < M16 && (rdlength == 4 || rdlength == 16)
    requires r == head + AnswerRecord(qtype, rdlength)
    requires LabelsAt(r, HEADER_LEN).Some? && more > 0
    ensures var after := AfterQuestions(r, |head|, more);
            after.None? || AfterRecords(r, after.value, 1) != Some(|r|)
  {
    AnswerTail(head, qtype, rdlength, r);
    TailMisreads(r, |head|, |head| + 6, rdlength, more);
  }

  lemma TailMisreads(r: seq<byte>, e: nat, p: nat, rdlength: nat, more: nat)
    requires HEADER_LEN < e && p == e + 6 && (rdlength == 4 || rdlength == 16) && |r| == p + 6 + rdlength
    requires r[e] == 0xC0 && r[e + 1] == 0x0C && r[p] == 0 && r[p + 5] == rdlength && r[p + 9] == 0
    requires rdlength == 16 ==> r[p + 10] == 0
    requires LabelsAt(r, HEADER_LEN).Some? && more > 0
    ensures var after := AfterQuestions(r, e, more);
            after.None? || AfterRecords(r, after.value, 1) != Some(|r|)
  {
    NameAsQuestion(r, e, more);
    MoreQuestionsMisread(r, p, rdlength, more - 1);
  }

  /** The answer's name and type, taken for a question. */
  lemma NameAsQuestion(r: seq<byte>, e: nat, more: nat)
    requires HEADER_LEN < e && e + 6 <= |r| && r[e] == 0xC0 && r[e + 1] == 0x0C && more > 0
    requires LabelsAt(r, HEADER_LEN).Some?
    ensures AfterQuestions(r, e, more) == AfterQuestions(r, e + 6, more - 1)
  {
    ReaderAgrees(r, HEADER_LEN, HEADER_LEN);
    assert U16(r[e] - 192, r[e + 1]) == HEADER_LEN;
    assert NameAt(r, e, e) == Some(WireName(LabelsAt(r, HEADER_LEN).value, e + 2));
  }

  lemma MoreQuestionsMisread(r: seq<byte>, p: nat, rdlength: nat, more: nat)
    requires rdlength == 4 || rdlength == 16
    requires |r| == p + 6 + rdlength && r[p] == 0 && r[p + 5] == rdlength && r[p + 9] == 0
    requires rdlength == 16 ==> r[p + 10] == 0
    ensures var after := AfterQuestions(r, p, more);
            after.None? || AfterRecords(r, after.value, 1) != Some(|r|)
  {
    if more == 0 {
      SecondRecordMisreads(r, p, rdlength);
    } else {
      assert NameAt(r, p, p) == Some(WireName([], p + 1));
      assert AfterQuestions(r, p, more) == AfterQuestions(r, p + 5, more - 1);
      NoNameInRdata(r, p + 5);
    }
  }

  lemma SecondRecordMisreads(r: seq<byte>, p: nat, rdlength: nat)
    requires rdlength == 4 || rdlength == 16
    requires |r| == p + 6 + rdlength && r[p] == 0 && r[p + 9] == 0 && (rdlength == 16 ==> r[p + 10] == 0)
    ensures AfterRecords(r, p, 1) != Some(|r|)
  {
    assert RecordAt(r, p) == RecordBody(r, [], p + 1);
    if rdlength == 16 {
      EmptyRdata(r, [], p + 1);
      assert AfterRecords(r, p, 1) == AfterRecords(r, p + 11, 0);
    }
  }

  lemma EmptyRdata(m: seq<byte>, labels: seq<Label>, p: nat)
    requires p + 10 <= |m| && m[p + 8] == 0 && m[p + 9] == 0
    ensures RecordBody(m, labels, p).Some? && RecordBody(m, labels, p).value.next == p + 10
  {
    var rdlength := U16(m[p + 8], m[p + 9]);
    assert rdlength == 0 && p + 10 + rdlength <= |m|;
  }

  /** A length octet that spans the rest of the message leaves no room for a name. */
  lemma NoNameInRdata(r: seq<byte>, pos: nat)
    requires pos < |r| && 0 < r[pos] < 64 && pos + 1 + r[pos] == |r|
    ensures NameAt(r, pos, pos) == None
  {
    assert NameAt(r, |r|, pos) == None;
  }

  /** The zero answer is a well-formed message exactly when the query had one question:
      QDCOUNT is echoed although only the first question is kept. */
  lemma ZeroAnswerIsWellFormedIff(buf: seq<byte>, n: nat, q: Question)
    requires n <= |buf| == 512 && Parse(buf[..n]) == Some(q)
    requires q.qtype == 1 || q.qtype == 28
    ensures HEADER_LEN <= q.end <= n && q.qtype < M16
    ensures var r := ZeroAnswer(buf, q.end, MAX_MSG_LEN, q.qtype);
            r.Some? && (WellFormed(r.value) <==> U16(buf[4], buf[5]) == 1)
  {
    QuestionEndBound(buf[..n]);
    ZeroAnswerIsCorrect(buf, n, q);
    var rdlength := if q.qtype == TYPE_A then 4 else 16;
    var head := AnswerHeader(buf[..q.end]);
    var r := ZeroAnswer(buf, q.end, MAX_MSG_LEN, q.qtype).value;
    assert r == head + AnswerRecord(q.qtype, rdlength);
    assert r[4..6] == buf[..n][4..6] == buf[4..6];
    assert r[4] == r[4..6][0] == buf[4] && r[5] == r[4..6][1] == buf[5];
    AnswerWellFormedIff(r, head, q, rdlength, U16(buf[4], buf[5]));
  }

  lemma AnswerWellFormedIff(r: seq<byte>, head: seq<byte>, q: Question, rdlength: nat, count: nat)
    requires q.qtype < M16 && (rdlength == 4 || rdlength == 16) && |head| > HEADER_LEN && q.end == |head|
    requires r == head + AnswerRecord(q.qtype, rdlength) && Parse(r) == Some(q)
    requires RecordAt(r, q.end).Some? && RecordAt(r, q.end).value.next == |r|
    requires U16(r[6], r[7]) == 1 && U16(r[8], r[9]) == 0 && U16(r[10], r[11]) == 0
    requires U16(r[4], r[5]) == count > 0
    ensures WellFormed(r) <==> count == 1
  {
    FirstQuestionRead(r, q, count);
    OneAnswerWellFormed(r);
    if count > 1 {
      SecondQuestionMisreads(head, q.qtype, rdlength, r, count - 1);
    } else {
      OneRecordToTheEnd(r, q.end);
    }
  }

  lemma OneAnswerWellFormed(r: seq<byte>)
    requires |r| >= HEADER_LEN
    requires U16(r[6], r[7]) == 1 && U16(r[8], r[9]) == 0 && U16(r[10], r[11]) == 0
    ensures WellFormed(r) <==>
              var answers := AfterQuestions(r, HEADER_LEN, U16(r[4], r[5]));
              answers.Some? && AfterRecords(r, answers.value, 1) == Some(|r|)
  {
  }

  lemma OneRecordToTheEnd(r: seq<byte>, pos: nat)
    requires RecordAt(r, pos).Some? && RecordAt(r, pos).value.next == |r|
    ensures AfterRecords(r, pos, 1) == Some(|r|)
  {
    assert AfterRecords(r, |r|, 0) == Some(|r|);
  }

  lemma FirstQuestionRead(r: seq<byte>, q: Question, count: nat)
    requires Parse(r) == Some(q) && count > 0
    ensures LabelsAt(r, HEADER_LEN).Some?
    ensures AfterQuestions(r, HEADER_LEN, count) == AfterQuestions(r, q.end, count - 1)
  {
    ReaderAgrees(r, HEADER_LEN, HEADER_LEN);
  }
}
