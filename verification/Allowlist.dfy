/** The user's allowlist in components/dns_proxy/dns_proxy.c: a settings string cut into
    C strings in place and scanned linearly. Unlike the block list file, its last line
    needs no newline. */
module Allowlist {
  import opened Words
  import opened CStrings
  import opened DomainList

  const MAX_LEN: nat := 2048

  /** Every non-empty line of the settings string, the last one included. */
  function Allowed(setting: Name): seq<Name> {
    Kept(SplitLines(setting).lines + [SplitLines(setting).rest])
  }

  class Allowlist {
    var buf: array?<byte>
    var entries: array?<nat>
    var count: nat

    ghost predicate Valid()
      reads this, buf, entries
    {
      && (entries == null ==> count == 0)
      && (entries != null ==>
            && buf != null
            && count <= entries.Length
            && forall k :: 0 <= k < count ==> entries[k] <= buf.Length)
    }

    ghost function Names(): seq<Name>
      reads this, buf, entries
      requires Valid()
    {
      if entries == null then [] else Pointed(buf[..], entries[..count])
    }

    constructor ()
      ensures Valid() && Names() == [] && buf == null && entries == null
    {
      buf, entries, count := null, null, 0;
    }

    /** `stored` is the buffer after the settings store filled it, when `found`. */
    method Reload(found: bool, stored: seq<byte>, bufferMem: bool, entriesMem: bool)
      requires found ==> |stored| == 2048 && NUL in stored
      modifies this
      ensures Valid()
      ensures buf == null || fresh(buf)
      ensures entries == null || fresh(entries)
      ensures Names() == if found && bufferMem && entriesMem then Allowed(CStr(stored)) else []
    {
      buf, entries, count := null, null, 0;
      AllowedLines([], []);
      if !bufferMem {
        return;
      }
      if !found || stored[0] == NUL {
        return;
      }
      var b := new byte[MAX_LEN](i requires 0 <= i < |stored| => stored[i]);
      assert b[..] == stored;
      ghost var text := CStr(stored);
      TextEndsAtNul(stored);
      var lineCount := 1;
      var p := 0;
      while b[p] != NUL
        invariant p <= |text|
        invariant lineCount == 1 + |SplitLines(text[..p]).lines|
        decreases |text| - p
      {
        assert b[p] == stored[p];
        assert p < |text|;
        assert text[..p + 1][..p] == text[..p];
        if b[p] == NEWLINE {
          lineCount := lineCount + 1;
        }
        p := p + 1;
      }
      assert p == |text| && text[..p] == text by {
        assert b[p] == stored[p];
      }
      if !entriesMem {
        return;
      }
      var pointers := new nat[lineCount];
      var n := CutSetting(b, text, pointers);
      buf := b;
      entries := pointers;
      count := n;
    }

    method IsAllowlisted(qname: Name) returns (r: bool)
      requires Valid()
      ensures r <==> qname in Names()
    {
      for i := 0 to count
        invariant forall k :: 0 <= k < i ==> Names()[k] != qname
      {
        var entry := CStr(buf[entries[i]..]);
        assert buf[entries[i]..] == buf[..][entries[i]..];
        assert entry == Names()[i];
        StrCmpEqual(qname, entry);
        if StrCmp(qname, entry) == 0 {
          return true;
        }
      }
      return false;
    }
  }

  lemma {:induction false} TextEndsAtNul(s: seq<byte>)
    requires NUL in s
    ensures |CStr(s)| < |s| && s[..|CStr(s)|] == CStr(s) && s[|CStr(s)|] == NUL
  {
    if s[0] != NUL {
      assert s == [s[0]] + s[1..];
      TextEndsAtNul(s[1..]);
    }
  }

  /** The loop that cuts at every newline and once more at the terminator. */
  method CutSetting(b: array<byte>, ghost text: Name, pointers: array<nat>) returns (n: nat)
    requires |text| < b.Length && NUL !in text
    requires b[..|text|] == text && b[|text|] == NUL
    requires pointers.Length == 1 + |SplitLines(text).lines|
    modifies b, pointers
    ensures n <= pointers.Length
    ensures forall k :: 0 <= k < n ==> pointers[k] < b.Length
    ensures Pointed(b[..], pointers[..n]) == Allowed(text)
  {
    n := 0;
    var lineStart, p := 0, 0;
    while true
      invariant p <= |text| && n < pointers.Length
      invariant b[..][|text|] == NUL
      invariant CutSoFar(b[..], text, p, lineStart, pointers[..n])
      invariant forall k :: 0 <= k < n ==> pointers[k] < b.Length
      decreases |text| - p
    {
      Terminated(b[..], text, p, lineStart, pointers[..n]);
      if b[p] == NUL {
        n := EndText(b, text, p, lineStart, pointers, n);
        break;
      }
      CutNothing(b[..], text, p, lineStart, pointers[..n]);
      if b[p] == NEWLINE {
        RoomForLine(text, p, n, pointers.Length - 1);
        n := EndLine(b, text, p, lineStart, pointers, n);
        lineStart := p + 1;
      }
      p := p + 1;
    }
  }

  /** The line that runs into the terminator. */
  method EndText(b: array<byte>, ghost text: Name, p: nat, lineStart: nat, pointers: array<nat>,
                 n: nat) returns (m: nat)
    requires p == |text| < b.Length && b[..][|text|] == NUL && n < pointers.Length
    requires CutSoFar(b[..], text, |text|, lineStart, pointers[..n])
    requires forall k :: 0 <= k < n ==> pointers[k] < b.Length
    modifies b, pointers
    ensures m <= pointers.Length
    ensures forall k :: 0 <= k < m ==> pointers[k] < b.Length
    ensures Pointed(b[..], pointers[..m]) == Allowed(text)
  {
    CutLastLine(b[..], text, lineStart, pointers[..n]);
    m := CutAt(b, p, lineStart, pointers, n);
  }

  lemma Terminated(b: seq<byte>, text: Name, p: nat, lineStart: nat, offsets: seq<nat>)
    requires CutSoFar(b, text, p, lineStart, offsets) && b[|text|] == NUL && NUL !in text
    ensures b[p] == NUL <==> p == |text|
  {
    if p < |text| {
      CutNothing(b, text, p, lineStart, offsets);
      assert text[p] in text;
    }
  }

  lemma CutLastLine(b: seq<byte>, text: Name, lineStart: nat, offsets: seq<nat>)
    requires CutSoFar(b, text, |text|, lineStart, offsets) && b[|text|] == NUL
    ensures var cut := b[|text| := NUL];
            cut == b &&
            Pointed(cut, if cut[lineStart] == NUL then offsets else offsets + [lineStart]) == Allowed(text)
  {
    var line := text[lineStart..];
    assert text[..|text|] == text;
    assert b[lineStart..] == line + [NUL] + b[|text| + 1..] by {
      assert b[lineStart..] == b[lineStart..|text|] + b[|text|..];
    }
    CStrCut(line, b[|text| + 1..]);
    KeptOneMore(SplitLines(text).lines, line);
    assert b[lineStart] == NUL <==> CStr(line) == [];
    PointedOneMore(b, offsets, lineStart);
  }

  /** What the user sees: the non-empty lines, in order, however the last one ends. */
  lemma AllowedLines(lines: seq<Name>, last: Name)
    requires ListableNames(lines) && NUL !in last && NEWLINE !in last
    ensures Allowed(JoinLines(lines) + last) == lines + if last == [] then [] else [last]
  {
    JoinThenSplit(lines, last);
    KeptOneMore(lines, last);
    KeptClean(lines);
    CStrOfClean(last, []);
    assert JoinLines([]) + last == last;
  }
}
