/** NUL-terminated strings, strcmp, and the newline-separated files that the firmware
    cuts into C strings in place. */
module CStrings {
  import opened Words

  type Name = seq<byte>

  const NUL: byte := 0
  const NEWLINE: byte := 10

  /** What a C string function sees of the bytes from some address on. */
  function CStr(s: seq<byte>): (r: Name)
    ensures NUL !in r && |r| <= |s|
  {
    if s == [] || s[0] == NUL then [] else [s[0]] + CStr(s[1..])
  }

  lemma {:induction false} CStrOfClean(s: seq<byte>, t: seq<byte>)
    requires NUL !in s
    ensures CStr(s) == s
    ensures CStr(s + [NUL] + t) == s
  {
    if s != [] {
      CStrOfClean(s[1..], t);
      assert (s + [NUL] + t)[1..] == s[1..] + [NUL] + t;
    }
  }

  /** Only the bytes up to the first NUL matter. */
  lemma {:induction false} CStrCut(s: seq<byte>, t: seq<byte>)
    ensures CStr(s + [NUL] + t) == CStr(s)
  {
    if s != [] && s[0] != NUL {
      CStrCut(s[1..], t);
      assert (s + [NUL] + t)[1..] == s[1..] + [NUL] + t;
    }
  }

  lemma CStrStable(a: seq<byte>, b: seq<byte>, off: nat, n: nat)
    requires off < n <= |a| && n <= |b|
    requires a[..n] == b[..n] && a[n - 1] == NUL
    ensures CStr(a[off..]) == CStr(b[off..])
  {
    var s := a[off..n - 1];
    assert a[..n][off..n - 1] == b[..n][off..n - 1];
    assert a[off..] == s + [NUL] + a[n..];
    assert b[..n][n - 1] == NUL;
    assert b[off..] == s + [NUL] + b[n..];
    CStrCut(s, a[n..]);
    CStrCut(s, b[n..]);
  }

  // -------------------------------------------------------------------- case

  function LowerByte(c: byte): byte {
    if 65 <= c <= 90 then c + 32 else c
  }

  function Lower(s: seq<byte>): (r: seq<byte>)
    ensures |r| == |s| && forall i :: 0 <= i < |s| ==> r[i] == LowerByte(s[i])
  {
    seq(|s|, i requires 0 <= i < |s| => LowerByte(s[i]))
  }

  /** The same letter in either case, or the same byte. */
  predicate SameLetter(a: byte, b: byte) {
    a == b || (65 <= a <= 90 && b == a + 32) || (65 <= b <= 90 && a == b + 32)
  }

  predicate SameLetters(s: seq<byte>, t: seq<byte>) {
    |s| == |t| && forall i :: 0 <= i < |s| ==> SameLetter(s[i], t[i])
  }

  /** Lower-casing forgets the case of ASCII letters, and nothing else. */
  lemma LowerForgetsCase(s: seq<byte>, t: seq<byte>)
    ensures Lower(s) == Lower(t) <==> SameLetters(s, t)
  {
    if Lower(s) == Lower(t) {
      forall i | 0 <= i < |s| ensures SameLetter(s[i], t[i]) {
        assert Lower(s)[i] == Lower(t)[i];
      }
    }
  }

  lemma LowerOfLower(s: seq<byte>)
    requires forall c :: c in s ==> !(65 <= c <= 90)
    ensures Lower(s) == s
  {
    forall i | 0 <= i < |s| ensures LowerByte(s[i]) == s[i] {
      assert s[i] in s;
    }
  }

  // ------------------------------------------------------------------- order

  /** strcmp on the contents of two C strings. */
  function StrCmp(a: Name, b: Name): int {
    if a == [] then (if b == [] then 0 else -1)
    else if b == [] then 1
    else if a[0] != b[0] then a[0] - b[0]
    else StrCmp(a[1..], b[1..])
  }

  /** Python's order on strings: a proper prefix first, otherwise the first difference. */
  ghost predicate Before(a: Name, b: Name) {
    exists k: nat :: DiffersAt(a, b, k)
  }

  ghost predicate DiffersAt(a: Name, b: Name, k: nat) {
    k <= |a| && k < |b| && a[..k] == b[..k] && (k == |a| || a[k] < b[k])
  }

  lemma {:induction false} StrCmpEqual(a: Name, b: Name)
    ensures StrCmp(a, b) == 0 <==> a == b
  {
    if a != [] && b != [] && a[0] == b[0] {
      StrCmpEqual(a[1..], b[1..]);
      assert a == [a[0]] + a[1..] && b == [b[0]] + b[1..];
    }
  }

  lemma {:induction false} StrCmpIsPythonOrder(a: Name, b: Name)
    ensures StrCmp(a, b) < 0 <==> Before(a, b)
  {
    if a == [] && b != [] {
      assert DiffersAt(a, b, 0);
    } else if a != [] && b != [] && a[0] != b[0] {
      if a[0] < b[0] {
        assert DiffersAt(a, b, 0);
      } else {
        assert forall k: nat | 0 < k <= |a| && k < |b| :: a[..k][0] != b[..k][0];
      }
    } else if a != [] && b != [] {
      StrCmpIsPythonOrder(a[1..], b[1..]);
      if Before(a[1..], b[1..]) {
        var k: nat :| DiffersAt(a[1..], b[1..], k);
        assert a[..k + 1] == [a[0]] + a[1..][..k] && b[..k + 1] == [b[0]] + b[1..][..k];
        assert DiffersAt(a, b, k + 1);
      }
      if Before(a, b) {
        var k: nat :| DiffersAt(a, b, k);
        assert a[1..][..k - 1] == a[..k][1..] && b[1..][..k - 1] == b[..k][1..];
        assert DiffersAt(a[1..], b[1..], k - 1);
      }
    }
  }

  lemma {:induction false} StrCmpFlips(a: Name, b: Name)
    ensures StrCmp(a, b) < 0 <==> StrCmp(b, a) > 0
  {
    if a != [] && b != [] && a[0] == b[0] {
      StrCmpFlips(a[1..], b[1..]);
    }
  }

  ghost predicate StrictlySorted(names: seq<Name>) {
    forall i, j :: 0 <= i < j < |names| ==> Before(names[i], names[j])
  }

  // ------------------------------------------------------------------- lines

  /** The newline-terminated lines of a file, and the unterminated rest. */
  datatype Split = Split(lines: seq<Name>, rest: Name)

  function SplitLines(s: seq<byte>): Split {
    if s == [] then Split([], [])
    else
      var before, c := SplitLines(s[..|s| - 1]), s[|s| - 1];
      if c == NEWLINE then Split(before.lines + [before.rest], [])
      else Split(before.lines, before.rest + [c])
  }

  function JoinLines(lines: seq<Name>): seq<byte> {
    if lines == [] then []
    else JoinLines(lines[..|lines| - 1]) + lines[|lines| - 1] + [NEWLINE]
  }

  ghost predicate NoNewlines(lines: seq<Name>) {
    forall l :: l in lines ==> NEWLINE !in l
  }

  lemma {:induction false} SplitThenJoin(s: seq<byte>)
    ensures JoinLines(SplitLines(s).lines) + SplitLines(s).rest == s
    ensures (forall l :: l in SplitLines(s).lines ==> 10 !in l) && 10 !in SplitLines(s).rest
  {
    if s != [] {
      SplitThenJoin(s[..|s| - 1]);
      var before := SplitLines(s[..|s| - 1]);
      if s[|s| - 1] == NEWLINE {
        assert (before.lines + [before.rest])[..|before.lines|] == before.lines;
      }
      assert s == s[..|s| - 1] + [s[|s| - 1]];
    }
  }

  lemma {:induction false} SplitAppend(s: seq<byte>, t: seq<byte>)
    requires NEWLINE !in t
    ensures SplitLines(s + t) == Split(SplitLines(s).lines, SplitLines(s).rest + t)
  {
    if t == [] {
      assert s + t == s && SplitLines(s).rest + t == SplitLines(s).rest;
    } else {
      assert (s + t)[..|s + t| - 1] == s + t[..|t| - 1];
      SplitAppend(s, t[..|t| - 1]);
      assert t == t[..|t| - 1] + [t[|t| - 1]];
    }
  }

  lemma {:induction false} JoinThenSplit(lines: seq<Name>, rest: Name)
    requires NoNewlines(lines) && NEWLINE !in rest
    ensures SplitLines(JoinLines(lines) + rest) == Split(lines, rest)
    decreases |lines|
  {
    if lines == [] {
      SplitAppend([], rest);
    } else {
      var init, last := lines[..|lines| - 1], lines[|lines| - 1];
      JoinThenSplit(init, last);
      var s := JoinLines(init) + last;
      assert (s + [NEWLINE])[..|s|] == s;
      assert SplitLines(s + [NEWLINE]) == Split(init + [last], []);
      SplitAppend(s + [NEWLINE], rest);
      assert init + [last] == lines;
    }
  }

  /** The lines a loader keeps: each read as a C string, empty ones skipped. */
  function Kept(lines: seq<Name>): seq<Name> {
    if lines == [] then []
    else
      var name := CStr(lines[|lines| - 1]);
      Kept(lines[..|lines| - 1]) + if name == [] then [] else [name]
  }

  lemma {:induction false} KeptClean(lines: seq<Name>)
    requires forall l :: l in lines ==> l != [] && NUL !in l
    ensures Kept(lines) == lines
  {
    if lines != [] {
      var init, last := lines[..|lines| - 1], lines[|lines| - 1];
      assert lines == init + [last];
      assert forall l :: l in init ==> l in lines;
      KeptClean(init);
      CStrOfClean(last, []);
    }
  }

  ghost predicate SomeLineReads(lines: seq<Name>, name: Name) {
    exists i :: 0 <= i < |lines| && CStr(lines[i]) == name
  }

  /** Keeping never invents, loses or reorders a non-empty clean line. */
  lemma {:induction false} KeptMembers(lines: seq<Name>, name: Name)
    ensures name in Kept(lines) <==> name != [] && SomeLineReads(lines, name)
    ensures |Kept(lines)| <= |lines|
  {
    if lines != [] {
      var init, last := lines[..|lines| - 1], lines[|lines| - 1];
      KeptMembers(init, name);
      if SomeLineReads(init, name) {
        var i :| 0 <= i < |init| && CStr(init[i]) == name;
        assert CStr(lines[i]) == name;
      }
      if SomeLineReads(lines, name) && CStr(last) != name {
        var i :| 0 <= i < |lines| && CStr(lines[i]) == name;
        assert CStr(init[i]) == name;
      }
      assert CStr(last) == CStr(lines[|lines| - 1]);
    }
  }
}
