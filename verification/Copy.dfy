/**
 The copy routines of duma.c, in place on one memory. What they must do is said by
 `Copied`: every byte of the target is the byte the source held before the call.
 */
module Copy {
  import opened Pages
  import opened Wrappers

  /** n bytes copied from src to dest, all read before any is written. */
  function Copied(m: seq<Byte>, dest: nat, src: nat, n: nat): seq<Byte>
    requires dest + n <= |m| && src + n <= |m|
  {
    seq(|m|, b requires 0 <= b < |m| => if dest <= b < dest + n then m[src + (b - dest)] else m[b])
  }

  /** One step of a loop that copies upwards. */
  lemma StepUp(m: seq<Byte>, cur: seq<Byte>, dest: nat, src: nat, i: nat)
    requires dest + i < |m| && src + i < |m| && cur == Copied(m, dest, src, i)
    requires dest <= src || src + i < dest
    ensures cur[dest + i := cur[src + i]] == Copied(m, dest, src, i + 1)
  {}

  /** One step of a loop that copies downwards. */
  lemma StepDown(m: seq<Byte>, cur: seq<Byte>, d: nat, s: nat, n: nat)
    requires 0 < s <= d && d + n <= |m| && cur == Copied(m, d, s, n)
    ensures cur[d - 1 := cur[s - 1]] == Copied(m, d - 1, s - 1, n + 1)
  {}

  lemma NothingCopied(m: seq<Byte>, dest: nat, src: nat)
    requires dest <= |m| && src <= |m|
    ensures Copied(m, dest, src, 0) == m
  {}

  /** The copy loop of memcpy and the string functions, lowest byte first: it copies
      what the source held unless the target starts inside the source, above its start. */
  method CopyUp(mem: array<Byte>, dest: nat, src: nat, n: nat)
    requires dest + n <= mem.Length && src + n <= mem.Length
    requires !(src < dest < src + n)
    modifies mem
    ensures mem[..] == Copied(old(mem[..]), dest, src, n)
  {
    NothingCopied(mem[..], dest, src);
    for i := 0 to n
      invariant mem[..] == Copied(old(mem[..]), dest, src, i)
    {
      StepUp(old(mem[..]), mem[..], dest, src, i);
      ghost var cur := mem[..];
      mem[dest + i] := mem[src + i];
      assert mem[..] == cur[dest + i := cur[src + i]];
    }
  }

  /** The two regions share a byte. */
  ghost predicate Overlap(dest: nat, src: nat, size: nat) {
    Span(dest, dest + size) * Span(src, src + size) != {}
  }

  /** The overlap test of memcpy. */
  predicate MemcpyStops(dest: nat, src: nat, size: nat, overlapAllowed: bool) {
    src < dest < src + size || (dest < src < dest + size && !overlapAllowed)
  }

  /** By default memcpy stops exactly on overlapping regions, except that a region may
      be copied onto itself; where overlap is allowed, exactly if the target starts
      behind the source's first byte and overlaps it, which the upward copy would
      destroy. */
  lemma MemcpyStopsOnOverlap(dest: nat, src: nat, size: nat, overlapAllowed: bool)
    ensures MemcpyStops(dest, src, size, overlapAllowed) <==>
              Overlap(dest, src, size) && (if overlapAllowed then dest > src else dest != src)
  {
    var both := Span(dest, dest + size) * Span(src, src + size);
    if dest <= src < dest + size { assert src in both; }
    if src <= dest < src + size { assert dest in both; }
    if both != {} { var b :| b in both; }
  }

  /** _duma_memcpy */
  method Memcpy(mem: array<Byte>, dest: nat, src: nat, size: nat, overlapAllowed: bool) returns (o: Outcome<nat>)
    requires dest + size <= mem.Length && src + size <= mem.Length
    modifies mem
    ensures o == if MemcpyStops(dest, src, size, overlapAllowed) then Abort(RegionsOverlap) else Done(dest)
    ensures mem[..] == if o.Done? then Copied(old(mem[..]), dest, src, size) else old(mem[..])
  {
    if (src < dest && dest < src + size) || (dest < src && src < dest + size && !overlapAllowed) {
      return Abort(RegionsOverlap);
    }
    CopyUp(mem, dest, src, size);
    o := Done(dest);
  }

  /** The backward copy loop of memmove. */
  method CopyDown(mem: array<Byte>, dest: nat, src: nat, size: nat)
    requires src <= dest && dest + size <= mem.Length
    modifies mem
    ensures mem[..] == Copied(old(mem[..]), dest, src, size)
  {
    ghost var m := mem[..];
    var d, s := dest + size, src + size;
    NothingCopied(m, d, s);
    while s > src
      invariant src <= s <= src + size && d - dest == s - src
      invariant mem[..] == Copied(m, d, s, size - (s - src))
    {
      StepDown(m, mem[..], d, s, size - (s - src));
      ghost var cur := mem[..];
      d, s := d - 1, s - 1;
      mem[d] := mem[s];
      assert mem[..] == cur[d := cur[s]];
    }
  }

  /** _duma_memmove: right for every overlap. */
  method Memmove(mem: array<Byte>, dest: nat, src: nat, size: nat) returns (r: nat)
    requires dest + size <= mem.Length && src + size <= mem.Length
    modifies mem
    ensures r == dest && mem[..] == Copied(old(mem[..]), dest, src, size)
  {
    var d, s := dest, src;
    ghost var m := mem[..];
    if d < s {
      NothingCopied(m, dest, src);
      var end := src + size;
      while s < end
        invariant src <= s <= end && d - dest == s - src
        invariant mem[..] == Copied(m, dest, src, s - src)
      {
        StepUp(m, mem[..], dest, src, s - src);
        ghost var cur := mem[..];
        mem[d] := mem[s];
        assert mem[..] == cur[d := cur[s]];
        d, s := d + 1, s + 1;
      }
    } else {
      CopyDown(mem, dest, src, size);
    }
    r := dest;
  }

  // ---- strings ----

  ghost predicate Terminated(m: seq<Byte>, a: nat) {
    exists k :: a <= k < |m| && m[k] == 0
  }

  /** strlen */
  function StrLen(m: seq<Byte>, a: nat): (n: nat)
    requires Terminated(m, a)
    ensures a + n < |m| && m[a + n] == 0
    ensures forall k :: a <= k < a + n ==> m[k] != 0
    decreases |m| - a
  {
    if m[a] == 0 then 0 else 1 + StrLen(m, a + 1)
  }

  lemma StrLenIs(m: seq<Byte>, a: nat, n: nat)
    requires a + n < |m| && m[a + n] == 0 && forall k :: a <= k < a + n ==> m[k] != 0
    ensures Terminated(m, a) && StrLen(m, a) == n
  {
    assert Terminated(m, a);
    var l := StrLen(m, a);
    if l < n { assert false; } else if n < l { assert false; }
  }

  /** The string at address a. */
  function StringAt(m: seq<Byte>, a: nat): seq<Byte>
    requires Terminated(m, a)
  {
    m[a..a + StrLen(m, a)]
  }

  /** What C says of a length-limited read: it stops at the terminator or the limit. */
  ghost predicate Limited(m: seq<Byte>, a: nat, size: nat) {
    a + size <= |m| || Terminated(m, a)
  }

  /** The length of the string at a, but at most size. */
  function LimitedLen(m: seq<Byte>, a: nat, size: nat): (n: nat)
    requires a <= |m| && Limited(m, a, size)
    ensures n <= size && a + n <= |m|
    ensures forall k :: a <= k < a + n ==> m[k] != 0
    ensures n < size ==> a + n < |m| && m[a + n] == 0
    decreases size
  {
    if size == 0 || m[a] == 0 then 0 else 1 + LimitedLen(m, a + 1, size - 1)
  }

  lemma LimitedLenIs(m: seq<Byte>, a: nat, size: nat, n: nat)
    requires a + n <= |m| && Limited(m, a, size) && n <= size
    requires forall k :: a <= k < a + n ==> m[k] != 0
    requires n < size ==> a + n < |m| && m[a + n] == 0
    ensures LimitedLen(m, a, size) == n
  {
    var l := LimitedLen(m, a, size);
    if l < n { assert false; } else if n < l { assert false; }
  }

  /** It is what strlen says, cut off at size. */
  lemma LimitedLenMeans(m: seq<Byte>, a: nat, size: nat)
    requires Terminated(m, a)
    ensures LimitedLen(m, a, size) == if StrLen(m, a) < size then StrLen(m, a) else size
  {
    LimitedLenIs(m, a, size, if StrLen(m, a) < size then StrLen(m, a) else size);
  }

  /** _duma_strnlen */
  method StrNLen(mem: array<Byte>, src: nat, size: nat) returns (len: nat)
    requires src <= mem.Length && Limited(mem[..], src, size)
    ensures len == LimitedLen(mem[..], src, size)
  {
    ghost var m := mem[..];
    len := 0;
    while len < size && mem[src + len] != 0
      invariant len <= size && src + len <= mem.Length
      invariant forall k :: src <= k < src + len ==> mem[k] != 0
      invariant len < size ==> src + len < mem.Length
    {
      len := len + 1;
      if len < size && src + size > mem.Length {
        ghost var k :| src <= k < |m| && m[k] == 0;
      }
    }
    LimitedLenIs(m, src, size, len);
  }

  /** strlen of the C library, as a loop. */
  method Strlen(mem: array<Byte>, a: nat) returns (n: nat)
    requires Terminated(mem[..], a)
    ensures n == StrLen(mem[..], a)
  {
    ghost var k :| a <= k < |mem[..]| && mem[..][k] == 0;
    n := 0;
    while mem[a + n] != 0
      invariant a + n <= k
      invariant forall j :: a <= j < a + n ==> mem[j] != 0
      decreases k - (a + n)
    {
      n := n + 1;
    }
    StrLenIs(mem[..], a, n);
  }

  /** _duma_strcpy: only a target inside the source string above its start is refused;
      otherwise the target receives the string the source was. */
  method Strcpy(mem: array<Byte>, dest: nat, src: nat) returns (o: Outcome<nat>)
    requires Terminated(mem[..], src) && dest + StrLen(mem[..], src) < mem.Length
    modifies mem
    ensures o == if src < dest <= src + StrLen(old(mem[..]), src) then Abort(RegionsOverlap) else Done(dest)
    ensures mem[..] == if o.Done? then Copied(old(mem[..]), dest, src, StrLen(old(mem[..]), src) + 1) else old(mem[..])
    ensures o.Done? ==> Terminated(mem[..], dest) && StringAt(mem[..], dest) == StringAt(old(mem[..]), src)
  {
    var len := Strlen(mem, src);
    var size := len + 1;
    if src < dest && dest < src + size {
      return Abort(RegionsOverlap);
    }
    ghost var m := mem[..];
    CopyUp(mem, dest, src, size);
    CopyString(m, dest, src);
    o := Done(dest);
  }

  /** The copied bytes as a slice. */
  lemma CopiedSlice(m: seq<Byte>, dest: nat, src: nat, n: nat)
    requires dest + n <= |m| && src + n <= |m|
    ensures Copied(m, dest, src, n)[dest..dest + n] == m[src..src + n]
    ensures Copied(m, dest, src, n)[..dest] == m[..dest]
  {}

  /** A slice without zeros followed by a zero is a string. */
  lemma SliceIsString(m: seq<Byte>, a: nat, t: seq<Byte>)
    requires a + |t| < |m| && m[a..a + |t|] == t && m[a + |t|] == 0 && 0 !in t
    ensures Terminated(m, a) && StringAt(m, a) == t
  {
    forall k | a <= k < a + |t| ensures m[k] != 0 { assert m[k] == t[k - a]; }
    StrLenIs(m, a, |t|);
  }

  lemma StringHasNoZero(m: seq<Byte>, a: nat)
    requires Terminated(m, a)
    ensures 0 !in StringAt(m, a)
  {}

  lemma CopyString(m: seq<Byte>, dest: nat, src: nat)
    requires Terminated(m, src) && dest + StrLen(m, src) < |m|
    ensures
      var m' := Copied(m, dest, src, StrLen(m, src) + 1);
      Terminated(m', dest) && StringAt(m', dest) == StringAt(m, src)
  {
    var n := StrLen(m, src);
    var m' := Copied(m, dest, src, n + 1);
    CopiedSlice(m, dest, src, n + 1);
    assert m'[dest..dest + n] == m'[dest..dest + n + 1][..n];
    assert m[src..src + n] == m[src..src + n + 1][..n];
    assert m'[dest + n] == m'[dest..dest + n + 1][n];
    StringHasNoZero(m, src);
    SliceIsString(m', dest, StringAt(m, src));
  }

  /** The memory after appending n bytes of src and a terminator at end. */
  function Appended(m: seq<Byte>, end: nat, src: nat, n: nat): seq<Byte>
    requires end + n < |m| && src + n <= |m|
  {
    Copied(m, end, src, n)[end + n := 0]
  }

  /** Copying a string of n - 1 bytes with its terminator appends it. */
  method CopyTerminated(mem: array<Byte>, end: nat, src: nat, n: nat)
    requires 0 < n && end + n <= mem.Length && src + n <= mem.Length && mem[src + n - 1] == 0
    requires !(src < end < src + n)
    modifies mem
    ensures mem[..] == Appended(old(mem[..]), end, src, n - 1)
  {
    TerminatorCopied(mem[..], end, src, n - 1);
    CopyUp(mem, end, src, n);
  }

  /** _duma_strcat */
  method Strcat(mem: array<Byte>, dest: nat, src: nat) returns (o: Outcome<nat>)
    requires Terminated(mem[..], dest) && Terminated(mem[..], src)
    requires dest + StrLen(mem[..], dest) + StrLen(mem[..], src) < mem.Length
    modifies mem
    ensures
      var m := old(mem[..]);
      var end, n := dest + StrLen(m, dest), StrLen(m, src);
      if src < end <= src + n then o == Abort(RegionsOverlap) && mem[..] == m
      else o == Done(dest) && mem[..] == Appended(m, end, src, n)
  {
    var destlen := Strlen(mem, dest);
    var srclen := Strlen(mem, src);
    var end, srcsize := dest + destlen, srclen + 1;
    if src < end && end < src + srcsize {
      return Abort(RegionsOverlap);
    }
    CopyTerminated(mem, end, src, srcsize);
    o := Done(dest);
  }

  lemma TerminatorCopied(m: seq<Byte>, end: nat, src: nat, n: nat)
    requires end + n < |m| && src + n < |m| && m[src + n] == 0
    ensures Copied(m, end, src, n + 1) == Appended(m, end, src, n)
  {}

  /** The target string followed by the bytes t and a terminator. */
  lemma AppendString(m: seq<Byte>, m': seq<Byte>, dest: nat, end: nat, t: seq<Byte>)
    requires Terminated(m, dest) && end == dest + StrLen(m, dest) && |m'| == |m| && end + |t| < |m|
    requires m'[..end] == m[..end] && m'[end..end + |t|] == t && m'[end + |t|] == 0 && 0 !in t
    ensures Terminated(m', dest) && StringAt(m', dest) == StringAt(m, dest) + t
  {
    assert m'[dest..end] == m'[..end][dest..] == m[..end][dest..] == StringAt(m, dest);
    assert m'[dest..end + |t|] == m'[dest..end] + m'[end..end + |t|];
    StringHasNoZero(m, dest);
    SliceIsString(m', dest, StringAt(m, dest) + t);
  }

  /** strcat and strncat: afterwards the target is the string it was, followed by the
      string the source was, cut off after `size` bytes; nothing else changed. */
  lemma AppendMeans(m: seq<Byte>, dest: nat, src: nat, n: nat)
    requires Terminated(m, dest) && src + n <= |m| && dest + StrLen(m, dest) + n < |m|
    requires forall k :: src <= k < src + n ==> m[k] != 0
    ensures
      var end := dest + StrLen(m, dest);
      var m' := Appended(m, end, src, n);
      && Terminated(m', dest) && StringAt(m', dest) == StringAt(m, dest) + m[src..src + n]
      && forall b :: 0 <= b < |m| && !(end <= b <= end + n) ==> m'[b] == m[b]
  {
    var end := dest + StrLen(m, dest);
    var c, m' := Copied(m, end, src, n), Appended(m, end, src, n);
    CopiedSlice(m, end, src, n);
    assert m'[end..end + n] == c[end..end + n];
    assert m'[..end] == c[..end];
    AppendString(m, m', dest, end, m[src..src + n]);
  }

  /** Copying bytes and writing a terminator behind them. */
  method CopyAndTerminate(mem: array<Byte>, end: nat, src: nat, n: nat)
    requires end + n < mem.Length && src + n <= mem.Length && !(src < end < src + n)
    modifies mem
    ensures mem[..] == Appended(old(mem[..]), end, src, n)
  {
    CopyUp(mem, end, src, n);
    ghost var c := mem[..];
    mem[end + n] := 0;
    assert mem[..] == c[end + n := 0];
  }

  /** _duma_strncat */
  method Strncat(mem: array<Byte>, dest: nat, src: nat, size: nat) returns (o: Outcome<nat>)
    requires size > 0 ==> Terminated(mem[..], dest) && src <= mem.Length && Limited(mem[..], src, size)
    requires size > 0 ==> dest + StrLen(mem[..], dest) + LimitedLen(mem[..], src, size) < mem.Length
    modifies mem
    ensures size == 0 ==> o == Done(dest) && mem[..] == old(mem[..])
    ensures size > 0 ==>
      var m := old(mem[..]);
      var end, n := dest + StrLen(m, dest), LimitedLen(m, src, size);
      if src < end <= src + n then o == Abort(RegionsOverlap) && mem[..] == m
      else o == Done(dest) && mem[..] == Appended(m, end, src, n)
  {
    if size == 0 {
      return Done(dest);
    }
    var destlen := Strlen(mem, dest);
    var srclen := StrNLen(mem, src, size);
    var end := dest + destlen;
    if src < end && end < src + srclen + 1 {
      return Abort(RegionsOverlap);
    }
    CopyAndTerminate(mem, end, src, srclen);
    o := Done(dest);
  }
}
