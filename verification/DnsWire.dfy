/** DNS message handling of components/dns_proxy/dns_wire.c, with the name encoding of
    section 3.1 and the header of section 4.1.1 of RFC 1035. */
module DnsWire {
  import opened Words
  import opened Options
  import opened CStrings

  const HEADER_LEN: nat := 12
  const MAX_NAME_LEN: nat := 255
  const MAX_MSG_LEN: nat := 512
  const SERVFAIL: byte := 2
  const NXDOMAIN: byte := 3
  const DOT: byte := 46

  type Label = seq<byte>

  // ----------------------------------------------------------- names on the wire

  /** Section 3.1: a length octet of 1..63 before each label. */
  ghost predicate WireLabels(labels: seq<Label>) {
    forall l :: l in labels ==> 1 <= |l| <= 63
  }

  function EncodeLabels(labels: seq<Label>): seq<byte>
    requires WireLabels(labels)
  {
    if labels == [] then []
    else
      assert labels[0] in labels && WireLabels(labels[1..]);
      [|labels[0]|] + labels[0] + EncodeLabels(labels[1..])
  }

  function EncodeName(labels: seq<Label>): seq<byte>
    requires WireLabels(labels)
  {
    EncodeLabels(labels) + [0]
  }

  /** The labels of the uncompressed name at an offset of a message. */
  function LabelsAt(m: seq<byte>, pos: nat): Option<seq<Label>>
    decreases |m| - pos
  {
    if pos >= |m| then None
    else if m[pos] == 0 then Some([])
    else if m[pos] >= 64 || pos + 1 + m[pos] > |m| then None
    else Prepend([m[pos + 1..pos + 1 + m[pos]]], LabelsAt(m, pos + 1 + m[pos]))
  }

  function Prepend(labels: seq<Label>, rest: Option<seq<Label>>): Option<seq<Label>> {
    if rest.None? then None else Some(labels + rest.value)
  }

  /** Labels joined by dots. */
  function Dotted(labels: seq<Label>): Name {
    if labels == [] then []
    else if |labels| == 1 then labels[0]
    else Dotted(labels[..|labels| - 1]) + [DOT] + labels[|labels| - 1]
  }

  lemma EncodeOneMore(l: Label, rest: seq<Label>)
    requires 1 <= |l| <= 63 && WireLabels(rest)
    ensures WireLabels([l] + rest)
    ensures EncodeName([l] + rest) == [|l|] + l + EncodeName(rest)
  {
    assert ([l] + rest)[1..] == rest;
    assert WireLabels([l] + rest);
  }

  /** The bytes at pos are the encoding of these labels. */
  ghost predicate Encoded(m: seq<byte>, pos: nat, labels: seq<Label>) {
    && WireLabels(labels)
    && pos + |EncodeName(labels)| <= |m|
    && m[pos..pos + |EncodeName(labels)|] == EncodeName(labels)
  }

  /** An encoding of l and more labels is a length octet, l, and the encoding of the rest. */
  lemma EncodedTail(m: seq<byte>, pos: nat, l: Label, rest: seq<Label>)
    requires 1 <= |l| <= 63 && WireLabels(rest) && Encoded(m, pos, [l] + rest)
    ensures pos + 1 + |l| <= |m| && m[pos] == |l| && m[pos + 1..pos + 1 + |l|] == l
    ensures Encoded(m, pos + 1 + |l|, rest)
  {
    EncodeOneMore(l, rest);
    SliceParts(m, pos, |l|, l, EncodeName(rest));
  }

  lemma SliceParts(m: seq<byte>, pos: nat, head: byte, a: seq<byte>, b: seq<byte>)
    requires pos + 1 + |a| + |b| <= |m| && m[pos..pos + 1 + |a| + |b|] == [head] + a + b
    ensures m[pos] == head && m[pos + 1..pos + 1 + |a|] == a
    ensures m[pos + 1 + |a|..pos + 1 + |a| + |b|] == b
  {
    var end := pos + 1 + |a| + |b|;
    var slice := m[pos..end];
    assert m[pos] == slice[0];
    SubSlice(m, pos, end, 1, 1 + |a|);
    SubSlice(m, pos, end, 1 + |a|, 1 + |a| + |b|);
    assert slice[1..1 + |a|] == a;
    assert slice[1 + |a|..1 + |a| + |b|] == b;
  }

  lemma {:induction false} DecodeEncoded(m: seq<byte>, pos: nat, labels: seq<Label>)
    requires Encoded(m, pos, labels)
    ensures LabelsAt(m, pos) == Some(labels)
    decreases |labels|
  {
    if labels == [] {
      assert m[pos..pos + 1][0] == 0;
    } else {
      var l, rest := labels[0], labels[1..];
      assert l in labels && WireLabels(rest) && labels == [l] + rest;
      EncodedTail(m, pos, l, rest);
      DecodeEncoded(m, pos + 1 + |l|, rest);
      DecodeOneLabel(m, pos, l, rest);
    }
  }

  lemma DecodeOneLabel(m: seq<byte>, pos: nat, l: Label, rest: seq<Label>)
    requires 1 <= |l| <= 63 && pos + 1 + |l| <= |m| && m[pos] == |l| && m[pos + 1..pos + 1 + |l|] == l
    requires LabelsAt(m, pos + 1 + |l|) == Some(rest)
    ensures LabelsAt(m, pos) == Some([l] + rest)
  {
  }

  lemma SplitSlice(m: seq<byte>, pos: nat, next: nat, end: nat)
    requires pos < next <= end <= |m|
    ensures m[pos..end] == [m[pos]] + m[pos + 1..next] + m[next..end]
  {
  }

  lemma {:induction false} EncodeDecoded(m: seq<byte>, pos: nat)
    requires LabelsAt(m, pos).Some?
    ensures Encoded(m, pos, LabelsAt(m, pos).value)
    decreases |m| - pos
  {
    if m[pos] != 0 {
      var next := pos + 1 + m[pos];
      EncodeDecoded(m, next);
      EncodeOneLabel(m, pos, m[pos + 1..next], LabelsAt(m, next).value);
    }
  }

  lemma EncodeOneLabel(m: seq<byte>, pos: nat, l: Label, rest: seq<Label>)
    requires pos + 1 + |l| <= |m| && 1 <= |l| <= 63 && m[pos] == |l| && m[pos + 1..pos + 1 + |l|] == l
    requires Encoded(m, pos + 1 + |l|, rest)
    ensures Encoded(m, pos, [l] + rest)
  {
    EncodeOneMore(l, rest);
    SplitSlice(m, pos, pos + 1 + |l|, pos + 1 + |l| + |EncodeName(rest)|);
  }

  lemma {:induction false} EncodeAppend(a: seq<Label>, b: seq<Label>)
    requires WireLabels(a) && WireLabels(b)
    ensures WireLabels(a + b) && EncodeLabels(a + b) == EncodeLabels(a) + EncodeLabels(b)
  {
    assert WireLabels(a + b);
    if a == [] {
      assert a + b == b;
    } else {
      assert (a + b)[1..] == a[1..] + b;
      assert WireLabels(a[1..]);
      EncodeAppend(a[1..], b);
    }
  }

  lemma DottedAppend(labels: seq<Label>, l: Label)
    ensures Dotted(labels + [l]) == if labels == [] then l else Dotted(labels) + [DOT] + l
  {
    assert (labels + [l])[..|labels|] == labels;
  }

  lemma {:induction false} DottedGrows(a: seq<Label>, b: seq<Label>)
    ensures |Dotted(a + b)| >= |Dotted(a)|
    decreases |b|
  {
    if b == [] {
      assert a + b == a;
    } else {
      assert (a + b)[..|a + b| - 1] == a + b[..|b| - 1];
      DottedGrows(a, b[..|b| - 1]);
    }
  }

  // ---------------------------------------------------------------- the question

  datatype Question = Question(txid: nat, qtype: nat, qclass: nat, end: nat, qname: Name)

  /** What dns_wire_parse_question accepts and returns, as a function of the message. */
  function Parse(m: seq<byte>): Option<Question> {
    if |m| < HEADER_LEN || U16(m[4], m[5]) == 0 then None
    else
      var labels := LabelsAt(m, HEADER_LEN);
      if labels.None? then None
      else QuestionAfter(m, labels.value, NameEnd(m, HEADER_LEN))
  }

  /** Offset after the zero octet of the uncompressed name at pos. */
  function NameEnd(m: seq<byte>, pos: nat): (r: nat)
    requires LabelsAt(m, pos).Some?
    ensures r <= |m|
    decreases |m| - pos
  {
    if m[pos] == 0 then pos + 1 else NameEnd(m, pos + 1 + m[pos])
  }

  function QuestionAfter(m: seq<byte>, labels: seq<Label>, pos: nat): Option<Question>
    requires |m| >= HEADER_LEN
  {
    if |Dotted(labels)| >= MAX_NAME_LEN || pos + 4 > |m| then None
    else Some(Question(U16(m[0], m[1]), U16(m[pos], m[pos + 1]), U16(m[pos + 2], m[pos + 3]),
                       pos + 4, Lower(Dotted(labels))))
  }

  lemma {:induction false} NameEndIsEncodedLength(m: seq<byte>, pos: nat)
    requires LabelsAt(m, pos).Some?
    ensures WireLabels(LabelsAt(m, pos).value)
    ensures NameEnd(m, pos) == pos + |EncodeName(LabelsAt(m, pos).value)|
    decreases |m| - pos
  {
    EncodeDecoded(m, pos);
    if m[pos] != 0 {
      NameEndIsEncodedLength(m, pos + 1 + m[pos]);
      var rest := LabelsAt(m, pos + 1 + m[pos]).value;
      assert LabelsAt(m, pos).value[1..] == rest;
    }
  }

  /** m is a message whose first question has exactly these labels. */
  ghost predicate Asks(m: seq<byte>, labels: seq<Label>) {
    && |m| >= HEADER_LEN
    && U16(m[4], m[5]) > 0
    && Encoded(m, HEADER_LEN, labels)
    && |Dotted(labels)| <= 254
    && HEADER_LEN + |EncodeName(labels)| + 4 <= |m|
  }

  lemma AsksDecodes(m: seq<byte>, labels: seq<Label>)
    requires Asks(m, labels)
    ensures LabelsAt(m, HEADER_LEN) == Some(labels)
  {
    DecodeEncoded(m, HEADER_LEN, labels);
  }

  /** The parser is exactly the inverse of name encoding. */
  lemma ParseInvertsEncoding(m: seq<byte>)
    ensures Parse(m).Some? <==> exists labels :: Asks(m, labels)
    ensures forall labels :: Asks(m, labels) ==>
              var pos := HEADER_LEN + |EncodeName(labels)|;
              Parse(m) == Some(Question(U16(m[0], m[1]), U16(m[pos], m[pos + 1]), U16(m[pos + 2], m[pos + 3]),
                                        pos + 4, Lower(Dotted(labels))))
  {
    if Parse(m).Some? {
      EncodeDecoded(m, HEADER_LEN);
      NameEndIsEncodedLength(m, HEADER_LEN);
      assert Asks(m, LabelsAt(m, HEADER_LEN).value);
    }
    forall labels | Asks(m, labels)
      ensures var pos := HEADER_LEN + |EncodeName(labels)|;
              Parse(m) == Some(Question(U16(m[0], m[1]), U16(m[pos], m[pos + 1]), U16(m[pos + 2], m[pos + 3]),
                                        pos + 4, Lower(Dotted(labels))))
    {
      AsksDecodes(m, labels);
      NameEndIsEncodedLength(m, HEADER_LEN);
    }
  }

  lemma {:induction false} EncodedLength(labels: seq<Label>)
    requires WireLabels(labels)
    ensures |EncodeLabels(labels)| == if labels == [] then 0 else |Dotted(labels)| + 1
    decreases |labels|
  {
    if labels != [] {
      var init, last := labels[..|labels| - 1], labels[|labels| - 1];
      assert labels == init + [last];
      assert last in labels && WireLabels(init) && WireLabels([last]);
      EncodeAppend(init, [last]);
      EncodedLength(init);
      assert EncodeLabels([last]) == [|last|] + last + EncodeLabels([]);
    }
  }

  /** A parsed question never reaches past byte 272. */
  lemma QuestionEndBound(m: seq<byte>)
    requires Parse(m).Some?
    ensures HEADER_LEN + 5 <= Parse(m).value.end <= 272 && Parse(m).value.end <= |m|
    ensures |Parse(m).value.qname| <= 254
  {
    NameEndIsEncodedLength(m, HEADER_LEN);
    EncodedLength(LabelsAt(m, HEADER_LEN).value);
  }

  /** Splitting at dots. */
  function SplitDots(s: Name): (r: seq<Label>)
    ensures r != []
  {
    if s == [] then [[]]
    else
      var before := SplitDots(s[..|s| - 1]);
      if s[|s| - 1] == DOT then before + [[]]
      else before[..|before| - 1] + [before[|before| - 1] + [s[|s| - 1]]]
  }

  lemma {:induction false} SplitDotsAppend(s: Name, t: Name)
    requires DOT !in t
    ensures SplitDots(s + t) == SplitDots(s)[..|SplitDots(s)| - 1] + [SplitDots(s)[|SplitDots(s)| - 1] + t]
    decreases |t|
  {
    if t == [] {
      assert s + t == s;
      assert SplitDots(s)[|SplitDots(s)| - 1] + t == SplitDots(s)[|SplitDots(s)| - 1];
    } else {
      var t' := t[..|t| - 1];
      assert (s + t)[..|s + t| - 1] == s + t';
      SplitDotsAppend(s, t');
      var last := SplitDots(s)[|SplitDots(s)| - 1];
      assert last + t == (last + t') + [t[|t| - 1]];
    }
  }

  /** No information is lost: labels without dots come back from the dotted name. */
  lemma {:induction false} DottedIsReversible(labels: seq<Label>)
    requires labels != [] && forall l :: l in labels ==> DOT !in l
    ensures SplitDots(Dotted(labels)) == labels
    decreases |labels|
  {
    var init, last := labels[..|labels| - 1], labels[|labels| - 1];
    assert labels == init + [last];
    if init == [] {
      SplitDotsAppend([], last);
      assert [] + last == last;
    } else {
      assert forall l :: l in init ==> l in labels;
      DottedIsReversible(init);
      var s := Dotted(init) + [DOT];
      assert s[..|s| - 1] == Dotted(init);
      assert SplitDots(s) == init + [[]];
      SplitDotsAppend(s, last);
      assert [] + last == last;
    }
  }

  function LowerAll(labels: seq<Label>): (r: seq<Label>)
    ensures |r| == |labels| && forall i :: 0 <= i < |labels| ==> r[i] == Lower(labels[i])
  {
    seq(|labels|, i requires 0 <= i < |labels| => Lower(labels[i]))
  }

  lemma {:induction false} LowerDotted(labels: seq<Label>)
    ensures Lower(Dotted(labels)) == Dotted(LowerAll(labels))
    decreases |labels|
  {
    if |labels| > 1 {
      var init, last := labels[..|labels| - 1], labels[|labels| - 1];
      LowerDotted(init);
      assert LowerAll(labels)[..|labels| - 1] == LowerAll(init);
      assert Lower(Dotted(init) + [DOT] + last) == Lower(Dotted(init)) + [DOT] + Lower(last);
    }
  }

  /** The parsed name determines the lower-cased labels of the question. */
  lemma ParsedNameRecoversLabels(m: seq<byte>, labels: seq<Label>)
    requires Asks(m, labels) && labels != []
    requires forall l :: l in labels ==> DOT !in l
    ensures Parse(m).Some? && SplitDots(Parse(m).value.qname) == LowerAll(labels)
  {
    ParseInvertsEncoding(m);
    LowerDotted(labels);
    forall l | l in LowerAll(labels) ensures DOT !in l {
      var i :| 0 <= i < |labels| && LowerAll(labels)[i] == l;
      assert DOT !in labels[i];
    }
    DottedIsReversible(LowerAll(labels));
  }

  // ------------------------------------------------------------- the parse loop

  /** dns_wire_question_t */
  class QuestionBuf {
    var txid: nat
    var qtype: nat
    var qclass: nat
    var questionEnd: nat
    const qname: array<byte>

    constructor ()
      ensures fresh(qname) && qname.Length == MAX_NAME_LEN
    {
      txid, qtype, qclass, questionEnd := 0, 0, 0, 0;
      qname := new byte[MAX_NAME_LEN](_ => NUL);
    }

    /** The parsed fields; qname holds n bytes and a terminator. */
    ghost predicate Holds(q: Question)
      reads this, qname
    {
      && txid == q.txid && qtype == q.qtype && qclass == q.qclass && questionEnd == q.end
      && |q.qname| < qname.Length
      && qname[..|q.qname|] == q.qname && qname[|q.qname|] == NUL
    }
  }

  method GetTxid(buf: array<byte>) returns (txid: nat)
    requires buf.Length >= 2
    ensures txid == U16(buf[0], buf[1])
  {
    txid := ReadU16(buf[0], buf[1]);
  }

  /** (hi << 8) | lo is the big-endian number of the two bytes. */
  method ReadU16(hi: byte, lo: byte) returns (r: nat)
    ensures r == U16(hi, lo)
  {
    OrOfBytes(hi, lo);
    r := Or(256 * hi, lo);
  }

  /** Copies one label behind the dots, lower-cased, unless the 254-byte limit is hit. */
  method AppendLabel(buf: array<byte>, pos: nat, labelLen: nat, qname: array<byte>, start: nat)
    returns (ok: bool, nameLen: nat)
    requires pos + labelLen <= buf.Length && qname.Length == MAX_NAME_LEN && buf != qname
    requires start < MAX_NAME_LEN
    modifies qname
    ensures ok <==> start + labelLen < MAX_NAME_LEN
    ensures ok ==> nameLen == start + labelLen &&
                   qname[..nameLen] == old(qname[..start]) + Lower(buf[pos..pos + labelLen])
  {
    nameLen := start;
    for i := 0 to labelLen
      invariant nameLen == start + i < MAX_NAME_LEN
      invariant qname[..nameLen] == old(qname[..start]) + Lower(buf[pos..pos + i])
    {
      if nameLen + 1 >= MAX_NAME_LEN {
        return false, nameLen;
      }
      var c := buf[pos + i];
      if 65 <= c <= 90 {
        c := c - 65 + 97;
      }
      assert Lower(buf[pos..pos + i + 1]) == Lower(buf[pos..pos + i]) + [c];
      qname[nameLen] := c;
      nameLen := nameLen + 1;
    }
    ok := true;
  }

  /** Where the parse loop stands: the labels seen so far are in qname, lower-cased. */
  ghost predicate ParsedSoFar(m: seq<byte>, pos: nat, seen: seq<Label>, written: seq<byte>) {
    && HEADER_LEN <= pos
    && LabelsAt(m, HEADER_LEN) == Prepend(seen, LabelsAt(m, pos))
    && (LabelsAt(m, pos).Some? ==> LabelsAt(m, HEADER_LEN).Some? && NameEnd(m, HEADER_LEN) == NameEnd(m, pos))
    && written == Lower(Dotted(seen))
    && (seen == [] <==> written == [])
  }

  lemma TopTwoBits(b: byte)
    ensures And(b, 0xC0) == 0 <==> b < 64
  {
    AndHighDigits(b, 3, 6);
    assert Doubled(3, 6) == 0xC0;
    var top := Halved(b, 6);
    assert top == b / 64 < 4;
    MaskIsModulo(top, 2);
    assert Pow2(2) == 4;
    assert Doubled(top, 6) == 64 * top;
  }

  lemma ParseOneLabel(m: seq<byte>, pos: nat, seen: seq<Label>, written: seq<byte>)
    requires ParsedSoFar(m, pos, seen, written)
    requires pos < |m| && 0 < m[pos] < 64 && pos + 1 + m[pos] <= |m|
    ensures var l := m[pos + 1..pos + 1 + m[pos]];
            var longer := written + (if written == [] then [] else [DOT]) + Lower(l);
            && ParsedSoFar(m, pos + 1 + m[pos], seen + [l], longer)
            && (|longer| >= MAX_NAME_LEN ==> Parse(m).None?)
  {
    var l := m[pos + 1..pos + 1 + m[pos]];
    var next := pos + 1 + m[pos];
    DottedAppend(seen, l);
    var rest := LabelsAt(m, next);
    if rest.Some? {
      assert seen + ([l] + rest.value) == (seen + [l]) + rest.value;
      DottedGrows(seen + [l], rest.value);
    }
    assert Lower(Dotted(seen) + [DOT] + l) == Lower(Dotted(seen)) + [DOT] + Lower(l);
  }

  /** The label loop of dns_wire_parse_question. */
  method ParseName(buf: array<byte>, len: nat, qname: array<byte>) returns (ok: bool, pos: nat, nameLen: nat)
    requires HEADER_LEN <= len <= buf.Length && buf != qname && qname.Length == MAX_NAME_LEN
    modifies qname
    ensures ok ==>
              && LabelsAt(buf[..len], HEADER_LEN).Some?
              && pos == NameEnd(buf[..len], HEADER_LEN)
              && nameLen < MAX_NAME_LEN
              && qname[..nameLen] == Lower(Dotted(LabelsAt(buf[..len], HEADER_LEN).value))
    ensures !ok ==> Parse(buf[..len]).None?
  {
    ghost var m := buf[..len];
    pos, nameLen := HEADER_LEN, 0;
    qname[0] := NUL;
    ghost var seen: seq<Label> := [];
    assert LabelsAt(m, pos).Some? ==> [] + LabelsAt(m, pos).value == LabelsAt(m, pos).value;
    while true
      invariant nameLen < MAX_NAME_LEN && buf[..len] == m
      invariant ParsedSoFar(m, pos, seen, qname[..nameLen])
      decreases len - pos
    {
      if pos >= len {
        return false, pos, nameLen;
      }
      var labelLen := buf[pos];
      assert labelLen == m[pos];
      if labelLen == 0 {
        assert seen + [] == seen;
        return true, pos + 1, nameLen;
      }
      TopTwoBits(labelLen);
      if And(labelLen, 0xC0) != 0 {
        return false, pos, nameLen;
      }
      if pos + 1 + labelLen > len {
        return false, pos, nameLen;
      }
      var fits;
      ghost var l := m[pos + 1..pos + 1 + labelLen];
      assert buf[..][..|m|] == buf[..len];
      fits, nameLen := TakeLabel(buf, m, pos, seen, qname, nameLen);
      if !fits {
        return false, pos, nameLen;
      }
      pos := pos + 1 + labelLen;
      seen := seen + [l];
    }
  }

  lemma LabelInBuffer(b: seq<byte>, m: seq<byte>, pos: nat)
    requires |m| <= |b| && b[..|m|] == m && pos < |m| && pos + 1 + m[pos] <= |m|
    ensures b[pos] == m[pos] && b[pos + 1..pos + 1 + m[pos]] == m[pos + 1..pos + 1 + m[pos]]
  {
    SubSlice(b, 0, |m|, pos + 1, pos + 1 + m[pos]);
    assert b[pos] == b[..|m|][pos];
  }

  /** One whole label: the dot before it, then its bytes. */
  method TakeLabel(buf: array<byte>, ghost m: seq<byte>, pos: nat, ghost seen: seq<Label>, qname: array<byte>,
                   start: nat)
    returns (ok: bool, nameLen: nat)
    requires buf != qname && qname.Length == MAX_NAME_LEN && start < MAX_NAME_LEN
    requires |m| <= buf.Length && buf[..][..|m|] == m
    requires pos < |m| && 0 < m[pos] < 64 && pos + 1 + m[pos] <= |m|
    requires ParsedSoFar(m, pos, seen, qname[..start])
    modifies qname
    ensures !ok ==> Parse(m).None?
    ensures ok ==> nameLen < MAX_NAME_LEN &&
                   ParsedSoFar(m, pos + 1 + m[pos], seen + [m[pos + 1..pos + 1 + m[pos]]], qname[..nameLen])
  {
    ParseOneLabel(m, pos, seen, qname[..start]);
    LabelInBuffer(buf[..], m, pos);
    ok, nameLen := AppendDottedLabel(buf, pos + 1, buf[pos], qname, start);
  }

  method AppendDottedLabel(buf: array<byte>, pos: nat, labelLen: nat, qname: array<byte>, start: nat)
    returns (ok: bool, nameLen: nat)
    requires pos + labelLen <= buf.Length && qname.Length == MAX_NAME_LEN && buf != qname
    requires start < MAX_NAME_LEN && labelLen > 0
    modifies qname
    ensures ok ==> nameLen < MAX_NAME_LEN
    ensures var written := old(qname[..start]);
            var longer := written + (if written == [] then [] else [DOT]) + Lower(buf[..][pos..pos + labelLen]);
            if ok then qname[..nameLen] == longer else |longer| >= MAX_NAME_LEN
  {
    nameLen := start;
    if nameLen > 0 {
      if nameLen + 1 >= MAX_NAME_LEN {
        return false, nameLen;
      }
      qname[nameLen] := DOT;
      nameLen := nameLen + 1;
      assert qname[..nameLen] == old(qname[..start]) + [DOT];
    }
    ok, nameLen := AppendLabel(buf, pos, labelLen, qname, nameLen);
    assert buf[pos..pos + labelLen] == buf[..][pos..pos + labelLen];
  }

  method ParseQuestion(buf: array<byte>, len: nat, out: QuestionBuf) returns (ok: bool)
    requires len <= buf.Length && buf != out.qname && out.qname.Length == MAX_NAME_LEN
    modifies out, out.qname
    ensures ok <==> Parse(buf[..len]).Some?
    ensures ok ==> out.Holds(Parse(buf[..len]).value)
  {
    if len < HEADER_LEN {
      return false;
    }
    var qdcount := ReadU16(buf[4], buf[5]);
    if qdcount == 0 {
      return false;
    }
    var pos, nameLen;
    ok, pos, nameLen := ParseName(buf, len, out.qname);
    if !ok {
      return false;
    }
    ghost var name := out.qname[..nameLen];
    out.qname[nameLen] := NUL;
    assert out.qname[..nameLen] == name;
    if pos + 4 > len {
      return false;
    }
    out.qtype := ReadU16(buf[pos], buf[pos + 1]);
    pos := pos + 2;
    out.qclass := ReadU16(buf[pos], buf[pos + 1]);
    pos := pos + 2;
    out.questionEnd := pos;
    out.txid := GetTxid(buf);
    return true;
  }
}
