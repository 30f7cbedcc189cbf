/** The exact block list of components/sd_storage/sd_storage.c: a whole file read into
    one buffer, cut into C strings in place, and searched by bisection. */
module DomainList {
  import opened Words
  import opened CStrings

  datatype Confirmation = Unavailable | Blocked | NotBlocked

  datatype LoadResult = Loaded | InvalidState | NotFound | InvalidSize | NoMemory

  /** A path on the card: absent, or a file of `size` bytes of which fread returned `read`. */
  datatype File = Missing | Present(size: nat, read: seq<byte>)

  /** domains_a.idx or domains_b.idx by the active-slot byte, else the legacy name. */
  function Selected(active: byte, fileA: File, fileB: File, legacy: File): File {
    var file := if active == 0 then fileA else fileB;
    if file.Missing? then legacy else file
  }

  /** The C strings at some offsets of a buffer. */
  function Pointed(buf: seq<byte>, offsets: seq<nat>): (r: seq<Name>)
    requires forall k :: 0 <= k < |offsets| ==> offsets[k] <= |buf|
  {
    seq(|offsets|, k requires 0 <= k < |offsets| => CStr(buf[offsets[k]..]))
  }

  /** All these strings end before n. */
  ghost predicate EndBefore(buf: seq<byte>, offsets: seq<nat>, n: nat)
    requires n <= |buf|
  {
    && (forall k :: 0 <= k < |offsets| ==> offsets[k] < n)
    && (offsets != [] ==> n > 0 && buf[n - 1] == NUL)
  }

  /** Cutting at or after n leaves every string that ends before n alone. */
  lemma PointedStable(a: seq<byte>, b: seq<byte>, offsets: seq<nat>, n: nat)
    requires n <= |a| && n <= |b| && a[..n] == b[..n]
    requires EndBefore(a, offsets, n)
    ensures Pointed(a, offsets) == Pointed(b, offsets)
  {
    forall k | 0 <= k < |offsets| ensures CStr(a[offsets[k]..]) == CStr(b[offsets[k]..]) {
      CStrStable(a, b, offsets[k], n);
    }
  }

  class List {
    var mounted: bool
    var buf: array?<byte>
    var lines: array?<nat>
    var count: nat

    ghost predicate Valid()
      reads this, buf, lines
    {
      && (lines == null ==> count == 0)
      && (lines != null ==>
            && buf != null
            && count <= lines.Length
            && forall k :: 0 <= k < count ==> lines[k] <= buf.Length)
    }

    ghost function Entries(): seq<Name>
      reads this, buf, lines
      requires Valid()
    {
      if lines == null then [] else Pointed(buf[..], lines[..count])
    }

    constructor ()
      ensures Valid() && Entries() == [] && !mounted && buf == null && lines == null
    {
      mounted, buf, lines, count := false, null, null, 0;
    }

    method Load(active: byte, fileA: File, fileB: File, legacy: File, bufferMem: bool, pointerMem: bool)
      returns (r: LoadResult)
      requires forall f :: f in [fileA, fileB, legacy] && f.Present? ==> |f.read| <= f.size
      modifies this`buf, this`lines, this`count
      ensures Valid()
      ensures buf == null || fresh(buf)
      ensures lines == null || fresh(lines)
      ensures r.Loaded? <==>
                var f := Selected(active, fileA, fileB, legacy);
                mounted && f.Present? && f.size > 0 && bufferMem && SplitLines(f.read).lines != [] && pointerMem
      ensures Entries() == if r.Loaded? then Kept(SplitLines(Selected(active, fileA, fileB, legacy).read).lines) else []
    {
      buf := null;
      lines := null;
      count := 0;
      if !mounted {
        return InvalidState;
      }
      var file := if active == 0 then fileA else fileB;
      if file.Missing? {
        file := legacy;
        if file.Missing? {
          return NotFound;
        }
      }
      if file.size == 0 {
        return InvalidSize;
      }
      if !bufferMem {
        return NoMemory;
      }
      var read := file.read;
      var b := new byte[file.size + 1](i => if 0 <= i < |read| then read[i] else NUL);
      assert b[..|read|] == read;
      var lineCount := CountNewlines(b, |read|);
      if lineCount == 0 {
        return InvalidSize;
      }
      if !pointerMem {
        return NoMemory;
      }
      var pointers := new nat[lineCount];
      var n := CutLines(b, |read|, pointers);
      buf := b;
      lines := pointers;
      count := n;
      return Loaded;
    }

    method Confirm(domain: Name) returns (r: Confirmation)
      requires Valid()
      ensures r == Confirmed(Entries(), domain)
    {
      if lines == null || count == 0 {
        return Unavailable;
      }
      assert |Entries()| == count;
      var found := Bsearch(domain, buf, lines, count, Entries());
      return if found then Blocked else NotBlocked;
    }
  }

  /** bsearch with cmp_domain: halving, comparing through the stored pointers. */
  method Bsearch(domain: Name, buf: array<byte>, lines: array<nat>, count: nat, ghost names: seq<Name>)
    returns (found: bool)
    requires count <= lines.Length && forall k :: 0 <= k < count ==> lines[k] <= buf.Length
    requires names == Pointed(buf[..], lines[..count])
    ensures found == Bisect(names, domain, 0, |names|)
  {
    var low, high := 0, count;
    while low < high
      invariant 0 <= low <= high <= count
      invariant Bisect(names, domain, 0, |names|) == Bisect(names, domain, low, high)
    {
      var mid := low + (high - low) / 2;
      assert buf[lines[mid]..] == buf[..][lines[mid]..];
      var diff := StrCmp(domain, CStr(buf[lines[mid]..]));
      assert diff == StrCmp(domain, names[mid]);
      if diff == 0 {
        return true;
      } else if diff > 0 {
        low := mid + 1;
      } else {
        high := mid;
      }
    }
    return false;
  }

  /** Does bisection over names[low..high] end on an equal string? */
  function Bisect(names: seq<Name>, domain: Name, low: nat, high: nat): bool
    requires low <= high <= |names|
    decreases high - low
  {
    if low == high then false
    else
      var mid := low + (high - low) / 2;
      var diff := StrCmp(domain, names[mid]);
      if diff == 0 then true
      else if diff > 0 then Bisect(names, domain, mid + 1, high)
      else Bisect(names, domain, low, mid)
  }

  function Confirmed(names: seq<Name>, domain: Name): Confirmation {
    if names == [] then Unavailable
    else if Bisect(names, domain, 0, |names|) then Blocked
    else NotBlocked
  }

  lemma {:induction false} BisectIsSound(names: seq<Name>, domain: Name, low: nat, high: nat)
    requires low <= high <= |names| && Bisect(names, domain, low, high)
    ensures domain in names
    decreases high - low
  {
    var mid := low + (high - low) / 2;
    StrCmpEqual(domain, names[mid]);
    if StrCmp(domain, names[mid]) > 0 {
      BisectIsSound(names, domain, mid + 1, high);
    } else if StrCmp(domain, names[mid]) < 0 {
      BisectIsSound(names, domain, low, mid);
    }
  }

  lemma {:induction false} BisectIsComplete(names: seq<Name>, domain: Name, low: nat, high: nat, at: nat)
    requires low <= at < high <= |names| && names[at] == domain && StrictlySorted(names)
    ensures Bisect(names, domain, low, high)
    decreases high - low
  {
    var mid := low + (high - low) / 2;
    BisectionStep(names, mid, domain);
    if StrCmp(domain, names[mid]) > 0 {
      BisectIsComplete(names, domain, mid + 1, high, at);
    } else if StrCmp(domain, names[mid]) < 0 {
      BisectIsComplete(names, domain, low, mid, at);
    }
  }

  /** The search never confirms a name that is not listed, and on a sorted list it
      confirms exactly the listed ones. */
  lemma ConfirmationIsMembership(names: seq<Name>, domain: Name)
    ensures Confirmed(names, domain).Blocked? ==> domain in names
    ensures StrictlySorted(names) ==> (Confirmed(names, domain).Blocked? <==> domain in names)
    ensures Confirmed(names, domain).Unavailable? <==> names == []
  {
    if names != [] && Bisect(names, domain, 0, |names|) {
      BisectIsSound(names, domain, 0, |names|);
    }
    if StrictlySorted(names) && domain in names {
      var at :| 0 <= at < |names| && names[at] == domain;
      BisectIsComplete(names, domain, 0, |names|, at);
    }
  }

  lemma BisectionStep(names: seq<Name>, mid: nat, domain: Name)
    requires mid < |names|
    ensures StrictlySorted(names) && StrCmp(domain, names[mid]) > 0 ==>
              forall k :: 0 <= k <= mid ==> names[k] != domain
    ensures StrictlySorted(names) && StrCmp(domain, names[mid]) < 0 ==>
              forall k :: mid <= k < |names| ==> names[k] != domain
  {
    StrCmpEqual(domain, names[mid]);
    if StrictlySorted(names) {
      forall k | 0 <= k < |names| && k != mid
        ensures k < mid && StrCmp(domain, names[mid]) > 0 ==> names[k] != domain
        ensures k > mid && StrCmp(domain, names[mid]) < 0 ==> names[k] != domain
      {
        StrCmpIsPythonOrder(names[k], names[mid]);
        StrCmpIsPythonOrder(names[mid], names[k]);
        StrCmpFlips(names[mid], names[k]);
      }
    }
  }

  /** First pass: how many pointers the second pass will need. */
  method CountNewlines(b: array<byte>, read: nat) returns (n: nat)
    requires read <= b.Length
    ensures n == |SplitLines(b[..read]).lines|
  {
    n := 0;
    for i := 0 to read
      invariant n == |SplitLines(b[..i]).lines|
    {
      assert b[..i + 1][..i] == b[..i];
      if b[i] == NEWLINE {
        n := n + 1;
      }
    }
  }

  /** Where the second pass stands after i bytes: everything before lineStart is cut,
      everything from lineStart on is still the file. */
  ghost predicate CutSoFar(b: seq<byte>, file: seq<byte>, i: nat, lineStart: nat, offsets: seq<nat>) {
    && lineStart <= i <= |file| < |b|
    && b[lineStart..|file|] == file[lineStart..]
    && SplitLines(file[..i]).rest == file[lineStart..i]
    && |offsets| <= |SplitLines(file[..i]).lines|
    && EndBefore(b, offsets, lineStart)
    && Pointed(b, offsets) == Kept(SplitLines(file[..i]).lines)
  }

  lemma CutNothing(b: seq<byte>, file: seq<byte>, i: nat, lineStart: nat, offsets: seq<nat>)
    requires CutSoFar(b, file, i, lineStart, offsets) && i < |file|
    ensures b[i] == file[i]
    ensures file[i] != NEWLINE ==> CutSoFar(b, file, i + 1, lineStart, offsets)
  {
    assert file[..i + 1][..i] == file[..i];
    assert b[i] == b[lineStart..|file|][i - lineStart] == file[lineStart..][i - lineStart];
    assert file[lineStart..i + 1] == file[lineStart..i] + [file[i]];
  }

  lemma CutOneLine(b: seq<byte>, file: seq<byte>, i: nat, lineStart: nat, offsets: seq<nat>)
    requires CutSoFar(b, file, i, lineStart, offsets) && i < |file| && file[i] == NEWLINE
    ensures var cut := b[i := NUL];
            CutSoFar(cut, file, i + 1, i + 1, if cut[lineStart] == NUL then offsets else offsets + [lineStart])
  {
    var cut, line := b[i := NUL], file[lineStart..i];
    var lines := SplitLines(file[..i]).lines;
    NewlineEndsLine(file, i);
    PointedStable(b, cut, offsets, lineStart);
    RestUncut(b, cut, file, i, lineStart);
    CutLineReads(cut, line, lineStart, i, offsets, lines);
    var kept := if cut[lineStart] == NUL then offsets else offsets + [lineStart];
    assert EndBefore(cut, kept, i + 1);
    assert file[i + 1..i + 1] == [];
  }

  lemma NewlineEndsLine(file: seq<byte>, i: nat)
    requires i < |file| && file[i] == NEWLINE
    ensures SplitLines(file[..i + 1]) == Split(SplitLines(file[..i]).lines + [SplitLines(file[..i]).rest], [])
  {
    assert file[..i + 1][..i] == file[..i];
  }

  lemma RestUncut(b: seq<byte>, cut: seq<byte>, file: seq<byte>, i: nat, lineStart: nat)
    requires lineStart <= i < |file| < |b| && b[lineStart..|file|] == file[lineStart..] && cut == b[i := NUL]
    ensures cut[lineStart..i] == file[lineStart..i] && cut[i + 1..|file|] == file[i + 1..]
  {
    assert b[lineStart..i] == b[lineStart..|file|][..i - lineStart];
    assert cut[i + 1..|file|] == b[lineStart..|file|][i + 1 - lineStart..];
  }

  /** The line just cut is kept exactly when it reads as a non-empty string. */
  lemma CutLineReads(cut: seq<byte>, line: Name, lineStart: nat, i: nat, offsets: seq<nat>, lines: seq<Name>)
    requires lineStart <= i < |cut| && cut[lineStart..i] == line && cut[i] == NUL
    requires forall k :: 0 <= k < |offsets| ==> offsets[k] <= |cut|
    requires Pointed(cut, offsets) == Kept(lines)
    ensures Pointed(cut, if cut[lineStart] == NUL then offsets else offsets + [lineStart]) == Kept(lines + [line])
  {
    assert cut[lineStart..] == line + [NUL] + cut[i + 1..];
    CStrCut(line, cut[i + 1..]);
    KeptOneMore(lines, line);
    PointedOneMore(cut, offsets, lineStart);
    assert line == [] || cut[lineStart] == line[0];
  }

  /** Ends the line at p; its address is stored unless it is empty. */
  method CutAt(b: array<byte>, p: nat, lineStart: nat, pointers: array<nat>, n: nat) returns (m: nat)
    requires lineStart <= p < b.Length && n < pointers.Length
    requires forall k :: 0 <= k < n ==> pointers[k] < b.Length
    modifies b, pointers
    ensures b[..] == old(b[..])[p := NUL]
    ensures n <= m <= n + 1
    ensures forall k :: 0 <= k < m ==> pointers[k] < b.Length
    ensures pointers[..m] == if b[..][lineStart] == NUL then old(pointers[..n]) else old(pointers[..n]) + [lineStart]
  {
    b[p] := NUL;
    m := n;
    if b[lineStart] != NUL {
      pointers[m] := lineStart;
      m := m + 1;
    }
  }

  /** Second pass: every newline becomes a NUL; the address of each non-empty line is stored. */
  method CutLines(b: array<byte>, read: nat, pointers: array<nat>) returns (n: nat)
    requires read < b.Length
    requires pointers.Length == |SplitLines(b[..read]).lines|
    modifies b, pointers
    ensures n <= pointers.Length
    ensures forall k :: 0 <= k < n ==> pointers[k] < b.Length
    ensures Pointed(b[..], pointers[..n]) == Kept(SplitLines(old(b[..read])).lines)
  {
    ghost var file := b[..read];
    n := 0;
    var lineStart := 0;
    for i := 0 to read
      invariant n <= pointers.Length
      invariant forall k :: 0 <= k < n ==> pointers[k] < b.Length
      invariant CutSoFar(b[..], file, i, lineStart, pointers[..n])
    {
      CutNothing(b[..], file, i, lineStart, pointers[..n]);
      if b[i] == NEWLINE {
        RoomForLine(file, i, n, pointers.Length);
        n := EndLine(b, file, i, lineStart, pointers, n);
        lineStart := i + 1;
      }
    }
    assert file[..read] == file;
  }

  /** Ends a line at a newline of the file. */
  method EndLine(b: array<byte>, ghost file: seq<byte>, i: nat, lineStart: nat, pointers: array<nat>, n: nat)
    returns (m: nat)
    requires n < pointers.Length && forall k :: 0 <= k < n ==> pointers[k] < b.Length
    requires CutSoFar(b[..], file, i, lineStart, pointers[..n]) && i < |file| && file[i] == NEWLINE
    modifies b, pointers
    ensures n <= m <= n + 1 && forall k :: 0 <= k < m ==> pointers[k] < b.Length
    ensures b[..] == old(b[..])[i := NUL]
    ensures CutSoFar(b[..], file, i + 1, i + 1, pointers[..m])
  {
    CutOneLine(b[..], file, i, lineStart, pointers[..n]);
    m := CutAt(b, i, lineStart, pointers, n);
  }

  lemma RoomForLine(file: seq<byte>, i: nat, n: nat, room: nat)
    requires i < |file| && file[i] == NEWLINE
    requires n <= |SplitLines(file[..i]).lines| && room >= |SplitLines(file).lines|
    ensures n < room
  {
    assert file[..i + 1][..i] == file[..i];
    SplitGrows(file, i + 1);
  }

  lemma PointedOneMore(buf: seq<byte>, offsets: seq<nat>, last: nat)
    requires last <= |buf| && forall k :: 0 <= k < |offsets| ==> offsets[k] <= |buf|
    ensures Pointed(buf, offsets + [last]) == Pointed(buf, offsets) + [CStr(buf[last..])]
  {
  }

  lemma KeptOneMore(lines: seq<Name>, last: Name)
    ensures Kept(lines + [last]) == Kept(lines) + if CStr(last) == [] then [] else [CStr(last)]
  {
    assert (lines + [last])[..|lines|] == lines;
  }

  lemma {:induction false} SplitGrows(file: seq<byte>, i: nat)
    requires i <= |file|
    ensures |SplitLines(file[..i]).lines| <= |SplitLines(file).lines|
    decreases |file|
  {
    if i < |file| {
      SplitGrows(file[..|file| - 1], i);
      assert file[..|file| - 1][..i] == file[..i];
    } else {
      assert file[..i] == file;
    }
  }

  // ---------------------------------------------------- the builder's side

  ghost predicate ListableNames(domains: seq<Name>) {
    forall d :: d in domains ==> d != [] && NUL !in d && NEWLINE !in d
  }

  /** "\n".join(domains) */
  function PythonJoin(domains: seq<Name>): seq<byte> {
    if domains == [] then []
    else if |domains| == 1 then domains[0]
    else PythonJoin(domains[..|domains| - 1]) + [10] + domains[|domains| - 1]
  }

  function IndexFile(domains: seq<Name>): seq<byte> {
    PythonJoin(domains) + [10]
  }

  lemma {:induction false} IndexFileIsJoinLines(domains: seq<Name>)
    requires domains != []
    ensures IndexFile(domains) == JoinLines(domains)
  {
    var init, last := domains[..|domains| - 1], domains[|domains| - 1];
    if init != [] {
      IndexFileIsJoinLines(init);
      assert PythonJoin(domains) + [NEWLINE] == (PythonJoin(init) + [NEWLINE]) + last + [NEWLINE];
    }
  }

  /** Loading what the builder wrote gives back exactly the builder's list; an
      unterminated tail, as a cut-off download leaves, is dropped. */
  lemma IndexRoundTrip(domains: seq<Name>, tail: seq<byte>)
    requires domains != [] && ListableNames(domains) && NEWLINE !in tail
    ensures Kept(SplitLines(IndexFile(domains) + tail).lines) == domains
  {
    IndexFileIsJoinLines(domains);
    JoinThenSplit(domains, tail);
    KeptClean(domains);
  }
}
