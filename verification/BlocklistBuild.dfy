/** The shape of the domains tools/blocklist_build.py lists (DOMAIN_RE), and what it
    guarantees about them on the wire and in the two published files. */
module BlocklistBuild {
  import opened Words
  import opened CStrings
  import opened DnsWire
  import opened DomainList
  import BloomFormat

  const HYPHEN: byte := 45

  predicate LabelChar(c: byte) {
    97 <= c <= 122 || 48 <= c <= 57 || c == HYPHEN
  }

  /** (?!-)[a-z0-9-]{1,63} */
  ghost predicate LabelShape(l: Label) {
    1 <= |l| <= 63 && l[0] != HYPHEN && forall c :: c in l ==> LabelChar(c)
  }

  /** DOMAIN_RE: at least two labels, 1..253 characters, no hyphen at the end. */
  ghost predicate DomainShape(d: Name, labels: seq<Label>) {
    && |labels| >= 2
    && d == Dotted(labels)
    && (forall l :: l in labels ==> LabelShape(l))
    && 1 <= |d| <= 253
    && d[|d| - 1] != HYPHEN
  }

  ghost predicate Listable(d: Name) {
    exists labels :: DomainShape(d, labels)
  }

  lemma {:induction false} DottedChars(labels: seq<Label>)
    requires forall l :: l in labels ==> LabelShape(l)
    ensures forall c :: c in Dotted(labels) ==> LabelChar(c) || c == DOT
    ensures labels != [] ==> Dotted(labels) != [] && LabelChar(Dotted(labels)[|Dotted(labels)| - 1])
    decreases |labels|
  {
    if labels != [] {
      var init, last := labels[..|labels| - 1], labels[|labels| - 1];
      assert labels == init + [last];
      assert forall l :: l in init ==> l in labels;
      assert last in labels && last[|last| - 1] in last;
      DottedChars(init);
    }
  }

  lemma {:induction false} SplitThenDotted(d: Name)
    ensures Dotted(SplitDots(d)) == d
  {
    if d != [] {
      var init := d[..|d| - 1];
      SplitThenDotted(init);
      assert d == init + [d[|d| - 1]];
      OneMoreCharacter(d, init, d[|d| - 1], SplitDots(init));
    }
  }

  lemma OneMoreCharacter(d: Name, init: Name, c: byte, parts: seq<Label>)
    requires d == init + [c] && parts == SplitDots(init) && parts != [] && Dotted(parts) == init
    ensures Dotted(SplitDots(d)) == d
  {
    assert d[..|d| - 1] == init;
    var front, last := parts[..|parts| - 1], parts[|parts| - 1];
    assert parts == front + [last];
    if c == DOT {
      DottedAppend(parts, []);
      assert init + [DOT] + [] == d;
    } else {
      DottedAppend(front, last);
      DottedAppend(front, last + [c]);
      LongerLast(front, last, c, init);
    }
  }

  lemma LongerLast(front: seq<Label>, last: Label, c: byte, init: Name)
    requires init == if front == [] then last else Dotted(front) + [DOT] + last
    ensures init + [c] == if front == [] then last + [c] else Dotted(front) + [DOT] + (last + [c])
  {
  }

  /** DOMAIN_RE in terms of what lies between the dots. */
  lemma ListableExactly(d: Name)
    ensures Listable(d) <==>
              && 1 <= |d| <= 253 && d[|d| - 1] != 45
              && |SplitDots(d)| >= 2
              && forall l :: l in SplitDots(d) ==>
                   1 <= |l| <= 63 && l[0] != 45 && forall c :: c in l ==> 97 <= c <= 122 || 48 <= c <= 57 || c == 45
  {
    SplitThenDotted(d);
    if Listable(d) {
      var labels :| DomainShape(d, labels);
      forall l | l in labels ensures DOT !in l {
        assert LabelShape(l);
      }
      DottedIsReversible(labels);
      assert SplitDots(d) == labels;
      assert forall l :: l in labels ==> LabelShape(l);
    } else {
      assert !DomainShape(d, SplitDots(d));
    }
  }

  lemma LowerCaseIsNormal(d: Name)
    requires d != [] && d[|d| - 1] != DOT
    requires forall c :: c in d ==> LabelChar(c) || c == DOT
    ensures BloomFormat.Normalize(d) == d && Lower(d) == d
  {
    forall i | 0 <= i < |d| ensures LowerByte(d[i]) == d[i] && !BloomFormat.IsSpace(d[i]) {
      assert d[i] in d;
    }
    assert Lower(d) == d;
    assert !BloomFormat.IsSpace(d[0]) && !BloomFormat.IsSpace(d[|d| - 1]);
  }

  /** A listed domain is already in normal form and survives every string format it
      passes through: C strings, lines, and the normalization of the filter builder. */
  lemma ListedDomainIsNormal(d: Name)
    requires Listable(d)
    ensures BloomFormat.Normalize(d) == d
    ensures d != [] && NUL !in d && NEWLINE !in d
    ensures CStr(d) == d && Lower(d) == d
  {
    var labels :| DomainShape(d, labels);
    DottedChars(labels);
    LowerCaseIsNormal(d);
    CStrOfClean(d, []);
  }

  /** Any mixture of upper and lower case on the wire, in any message with a question. */
  ghost predicate AsksFor(m: seq<byte>, spelled: seq<Label>) {
    && |m| >= HEADER_LEN
    && U16(m[4], m[5]) > 0
    && Encoded(m, HEADER_LEN, spelled)
    && HEADER_LEN + |EncodeName(spelled)| + 4 <= |m|
  }

  /** The same labels, letter by letter, in any mixture of cases. */
  predicate Spells(spelled: seq<Label>, labels: seq<Label>) {
    |spelled| == |labels| && forall i :: 0 <= i < |labels| ==> SameLetters(spelled[i], labels[i])
  }

  lemma SpelledLower(spelled: seq<Label>, labels: seq<Label>)
    requires Spells(spelled, labels) && forall l :: l in labels ==> LabelShape(l)
    ensures LowerAll(spelled) == labels
  {
    forall i | 0 <= i < |labels| ensures Lower(spelled[i]) == labels[i] {
      assert labels[i] in labels;
      LowerForgetsCase(spelled[i], labels[i]);
      LowerOfLower(labels[i]);
    }
  }

  /** Whatever spaces, capitals and trailing dot a listed domain comes with, the builder's normal
      form of it is the domain. */
  lemma NormalFormOf(d: Name, before: seq<byte>, written: seq<byte>, dot: seq<byte>, after: seq<byte>)
    requires Listable(d) && SameLetters(written, d) && (dot == [] || dot == [46])
    requires forall c :: c in before + after ==> c == 32 || 9 <= c <= 13 || 28 <= c <= 31
    ensures BloomFormat.Normalize(before + (written + dot) + after) == d
  {
    ListedDomainIsNormal(d);
    var core := written + dot;
    NoSpaceAtEnds(d, written, core, dot);
    BloomFormat.StripsSpaces(before, core, after);
    LowerForgetsCase(written, d);
    assert core[..|d|] == written;
    NormalFormOfCore(before + core + after, core, d, dot);
  }

  lemma NormalFormOfCore(whole: seq<byte>, core: seq<byte>, d: Name, dot: seq<byte>)
    requires BloomFormat.StripRight(BloomFormat.StripLeft(whole)) == core
    requires |core| == |d| + |dot| && Lower(core[..|d|]) == d && core[|d|..] == dot
    requires (dot == [] || dot == [46]) && d != [] && d[|d| - 1] != DOT
    ensures BloomFormat.Normalize(whole) == d
  {
    assert Lower(core) == d + dot by {
      forall i | 0 <= i < |core| ensures Lower(core)[i] == (d + dot)[i] {
        if i < |d| {
          assert core[i] == core[..|d|][i] && Lower(core[..|d|])[i] == d[i];
        } else {
          assert core[i] == core[|d|..][i - |d|];
        }
      }
    }
  }

  lemma NoSpaceAtEnds(d: Name, written: seq<byte>, core: seq<byte>, dot: seq<byte>)
    requires Listable(d) && SameLetters(written, d) && core == written + dot && (dot == [] || dot == [46])
    ensures core != [] && !BloomFormat.IsSpace(core[0]) && !BloomFormat.IsSpace(core[|core| - 1])
    ensures d != [] && d[|d| - 1] != DOT
  {
    var labels :| DomainShape(d, labels);
    DottedChars(labels);
    assert d[0] in d && d[|d| - 1] in d;
    assert SameLetter(written[0], d[0]) && SameLetter(written[|d| - 1], d[|d| - 1]);
  }

  /** The builder's length limits guarantee that the parser never refuses a listed
      domain, and it always reads it as the listed string. */
  lemma ListedDomainParses(d: Name, labels: seq<Label>, m: seq<byte>, spelled: seq<Label>)
    requires DomainShape(d, labels) && Spells(spelled, labels) && AsksFor(m, spelled)
    ensures Parse(m).Some? && Parse(m).value.qname == d && CStr(Parse(m).value.qname) == d
  {
    SpelledLower(spelled, labels);
    LowerDotted(spelled);
    assert Asks(m, spelled);
    ParseInvertsEncoding(m);
    assert Listable(d);
    ListedDomainIsNormal(d);
  }

  /** What the builder publishes: a sorted list without duplicates of listable domains. */
  ghost predicate Published(domains: seq<Name>) {
    && domains != []
    && StrictlySorted(domains)
    && forall d :: d in domains ==> Listable(d)
  }

  /** The device reads back exactly the published list from the published index file. */
  lemma PublishedIndexLoads(domains: seq<Name>)
    requires Published(domains)
    ensures Kept(SplitLines(IndexFile(domains)).lines) == domains
  {
    forall d | d in domains ensures d != [] && NUL !in d && NEWLINE !in d {
      ListedDomainIsNormal(d);
    }
    IndexRoundTrip(domains, []);
    assert IndexFile(domains) + [] == IndexFile(domains);
  }
}
