/**
 Splitting a file into chunks of whole lines: infra/filex/lookup.go over the
 bytes of the file, read in buffers of 1024.
 */
module LineChunks {

  type Byte = b: int | 0 <= b < 256

  const BUF_SIZE: nat := 1024

  predicate IsNewline(b: Byte)
  {
    b == 13 || b == 10
  }

  ghost predicate NoNewline(s: seq<Byte>, a: nat, z: nat)
    requires a <= z <= |s|
  {
    forall i :: a <= i < z ==> !IsNewline(s[i])
  }

  ghost predicate AllNewlines(s: seq<Byte>, a: nat, z: nat)
    requires a <= z <= |s|
  {
    forall i :: a <= i < z ==> IsNewline(s[i])
  }

  // --------------------------------------------------------------- partial lines

  datatype Skip = Eof | Here(pos: nat)

  /** The first newline from i on, or the end. */
  function FirstNewline(s: seq<Byte>, i: nat): (e: nat)
    requires i <= |s|
    ensures i <= e <= |s| && NoNewline(s, i, e) && (e < |s| ==> IsNewline(s[e]))
    decreases |s| - i
  {
    if i < |s| && !IsNewline(s[i]) then FirstNewline(s, i + 1) else i
  }

  /** The end of the newlines from i on, up to a limit. */
  function RunEnd(s: seq<Byte>, i: nat, limit: nat): (z: nat)
    requires i <= limit <= |s|
    ensures i <= z <= limit && AllNewlines(s, i, z) && (z < limit ==> !IsNewline(s[z]))
    decreases limit - i
  {
    if i < limit && IsNewline(s[i]) then RunEnd(s, i + 1, limit) else i
  }

  function BufferEnd(s: seq<Byte>, from: nat): (z: nat)
    requires from <= |s|
    ensures from <= z <= |s| && (z == |s| || z == from + BUF_SIZE) && (from < |s| ==> from < z)
  {
    if from + BUF_SIZE < |s| then from + BUF_SIZE else |s|
  }

  /**
   Where the scan from a position stops: after the newlines of the line, within
   the buffer of the first one, or nowhere.
   */
  function SkipTo(s: seq<Byte>, from: nat): (r: Skip)
    requires from <= |s|
    ensures r.Here? ==> from < r.pos <= |s| && IsNewline(s[r.pos - 1])
    decreases |s| - from
  {
    var e, z := FirstNewline(s, from), BufferEnd(s, from);
    if from == |s| then Eof
    else if e < z then Here(RunEnd(s, e, z))
    else SkipTo(s, z)
  }

  lemma {:induction false} FirstFurther(s: seq<Byte>, i: nat, j: nat)
    requires i <= j <= |s| && NoNewline(s, i, j)
    ensures FirstNewline(s, i) == FirstNewline(s, j)
    decreases j - i
  {
    if i < j {
      FirstFurther(s, i + 1, j);
    }
  }

  /** There is no stop exactly when there is no newline. */
  lemma {:induction false} SkipFails(s: seq<Byte>, from: nat)
    requires from <= |s|
    ensures SkipTo(s, from).Eof? <==> NoNewline(s, from, |s|)
    decreases |s| - from
  {
    var e, z := FirstNewline(s, from), BufferEnd(s, from);
    if from < |s| && e >= z {
      SkipFails(s, z);
      assert NoNewline(s, from, z);
    }
  }

  /**
   What the stop is: the line ends at e, newlines follow up to the stop, and
   the stop is at the end of the file, before another character, or a whole
   number of buffers away.
   */
  lemma {:induction false} StopMeaning(s: seq<Byte>, from: nat) returns (e: nat)
    requires from <= |s| && SkipTo(s, from).Here?
    ensures var pos := SkipTo(s, from).pos;
      && from <= e < pos <= |s| && NoNewline(s, from, e) && AllNewlines(s, e, pos)
      && (pos == |s| || !IsNewline(s[pos]) || (pos - from) % BUF_SIZE == 0)
    decreases |s| - from
  {
    e := FirstNewline(s, from);
    var z := BufferEnd(s, from);
    if e >= z {
      assert NoNewline(s, from, z);
      e := StopMeaning(s, z);
    }
  }

  /** The loop over one buffer: past the rest of a line and its newlines, or to the end. */
  method ScanBuffer(buf: seq<Byte>) returns (k: nat, found: bool, ghost e: nat)
    ensures !found ==> k == |buf| && NoNewline(buf, 0, |buf|)
    ensures found ==> e < k <= |buf| && NoNewline(buf, 0, e) && AllNewlines(buf, e, k) && (k == |buf| || !IsNewline(buf[k]))
  {
    k, e := 0, 0;
    while k < |buf|
      invariant 0 <= k <= |buf| && NoNewline(buf, 0, k)
    {
      if IsNewline(buf[k]) {
        e := k;
        while k < |buf|
          invariant e <= k <= |buf| && AllNewlines(buf, e, k) && (k == e ==> k < |buf| && IsNewline(buf[k]))
        {
          if !IsNewline(buf[k]) {
            return k, true, e;
          }
          k := k + 1;
        }
        return k, true, e;
      }
      k := k + 1;
    }
    found := false;
  }

  lemma {:induction false} RunIs(s: seq<Byte>, i: nat, limit: nat, z: nat)
    requires i <= z <= limit <= |s| && AllNewlines(s, i, z) && (z == limit || !IsNewline(s[z]))
    ensures RunEnd(s, i, limit) == z
    decreases z - i
  {
    if i < z {
      RunIs(s, i + 1, limit, z);
    }
  }

  /** What a buffer shows holds of the file. */
  lemma {:induction false} InFile(s: seq<Byte>, from: nat, buf: seq<Byte>, e: nat, k: nat)
    requires from < |s| && buf == s[from..BufferEnd(s, from)]
    requires e < k <= |buf| && NoNewline(buf, 0, e) && AllNewlines(buf, e, k) && (k == |buf| || !IsNewline(buf[k]))
    ensures SkipTo(s, from) == Here(from + k)
  {
    forall i | from <= i < from + e ensures !IsNewline(s[i]) {
      assert s[i] == buf[i - from];
    }
    forall i | from + e <= i < from + k ensures IsNewline(s[i]) {
      assert s[i] == buf[i - from];
    }
    if k < |buf| {
      assert s[from + k] == buf[k];
    }
    FirstFurther(s, from, from + e);
    RunIs(s, from + e, BufferEnd(s, from), from + k);
  }

  lemma {:induction false} NotInBuffer(s: seq<Byte>, from: nat, buf: seq<Byte>)
    requires from < |s| && buf == s[from..BufferEnd(s, from)] && NoNewline(buf, 0, |buf|)
    ensures SkipTo(s, from) == SkipTo(s, BufferEnd(s, from))
  {
    var z := BufferEnd(s, from);
    forall i | from <= i < z ensures !IsNewline(s[i]) {
      assert s[i] == buf[i - from];
    }
    FirstFurther(s, from, z);
  }

  /** skipPartialLine */
  method SkipPartialLine(s: seq<Byte>, from: nat) returns (r: Skip)
    requires from <= |s|
    ensures r == SkipTo(s, from)
    ensures r.Here? ==> from < r.pos <= |s| && IsNewline(s[r.pos - 1])
  {
    var offset := from;
    while true
      invariant from <= offset <= |s| && SkipTo(s, offset) == SkipTo(s, from)
      decreases |s| - offset
    {
      var buf := s[offset..BufferEnd(s, offset)];
      if buf == [] {
        return Eof;
      }
      var k, found, e := ScanBuffer(buf);
      if found {
        InFile(s, offset, buf, e, k);
        return Here(offset + k);
      }
      NotInBuffer(s, offset, buf);
      offset := offset + k;
    }
  }

  // ---------------------------------------------------------------------- chunks

  datatype Range = Range(start: nat, stop: nat)

  datatype Result = Failed | Ranges(ranges: seq<Range>)

  /** Ranges from 0 to `end`, each starting where the one before stops, longer than p and ending right after a newline. */
  predicate FullChunks(s: seq<Byte>, rs: seq<Range>, end: nat, p: nat)
    decreases |rs|
  {
    if rs == [] then end == 0
    else
      var last := rs[|rs| - 1];
      && last.stop == end && last.start + p < end <= |s| && IsNewline(s[end - 1])
      && FullChunks(s, rs[..|rs| - 1], last.start, p)
  }

  /** Ranges that cover the file: full chunks and then one more up to its end, empty only for an empty file. */
  predicate Partition(s: seq<Byte>, rs: seq<Range>)
  {
    && rs != [] && rs[|rs| - 1].stop == |s| && (rs[|rs| - 1].start < |s| || s == [])
    && FullChunks(s, rs[..|rs| - 1], rs[|rs| - 1].start, 0)
  }

  /** The chunk ends where the scan from the preferred size on stops, or with the file when that is no further. */
  ghost predicate EndsTight(s: seq<Byte>, r: Range, p: nat)
  {
    if r.start + p < |s| then SkipTo(s, r.start + p) == Here(r.stop) else r.stop == |s|
  }

  ghost predicate Tight(s: seq<Byte>, rs: seq<Range>, p: nat)
  {
    forall i :: 0 <= i < |rs| ==> EndsTight(s, rs[i], p)
  }

  lemma {:induction false} TightNext(s: seq<Byte>, rs: seq<Range>, p: nat, r: Range)
    requires Tight(s, rs, p) && EndsTight(s, r, p)
    ensures Tight(s, rs + [r], p)
  {
  }

  /** Range by range: end to end, and every boundary right after a newline. */
  lemma {:induction false} ChunkAt(s: seq<Byte>, rs: seq<Range>, end: nat, p: nat, i: nat)
    requires FullChunks(s, rs, end, p) && i < |rs|
    ensures rs[i].start + p < rs[i].stop <= |s| && IsNewline(s[rs[i].stop - 1])
    ensures rs[i].stop == if i + 1 < |rs| then rs[i + 1].start else end
    ensures i == 0 ==> rs[i].start == 0
    decreases |rs|
  {
    var init := rs[..|rs| - 1];
    if i < |rs| - 1 {
      ChunkAt(s, init, rs[|rs| - 1].start, p, i);
    }
  }

  lemma {:induction false} PartitionAt(s: seq<Byte>, rs: seq<Range>, i: nat)
    requires Partition(s, rs) && i < |rs|
    ensures rs[i].start <= rs[i].stop <= |s| && rs[i].stop == if i + 1 < |rs| then rs[i + 1].start else |s|
    ensures if i == 0 then rs[i].start == 0 else 0 < rs[i].start <= |s| && IsNewline(s[rs[i].start - 1])
  {
    var init := rs[..|rs| - 1];
    if i < |init| {
      ChunkAt(s, init, rs[|rs| - 1].start, 0, i);
    }
    if i > 0 {
      ChunkAt(s, init, rs[|rs| - 1].start, 0, i - 1);
    }
  }

  /**
   Where a chunk of a split ends: it runs on past the preferred size to the end e
   of the line, takes in the newlines there as far as the buffer goes, and ends.
   */
  lemma {:induction false} ChunkEnds(s: seq<Byte>, rs: seq<Range>, p: nat, i: nat) returns (e: nat)
    requires Tight(s, rs, p) && i < |rs| && rs[i].start + p < |s|
    ensures var from, stop := rs[i].start + p, rs[i].stop;
      && from <= e < stop <= |s| && NoNewline(s, from, e) && AllNewlines(s, e, stop)
      && (stop == |s| || !IsNewline(s[stop]) || (stop - from) % 1024 == 0)
  {
    assert EndsTight(s, rs[i], p);
    e := StopMeaning(s, rs[i].start + p);
  }

  /** From offset o on, some scan finds no newline to stop at. */
  predicate FailsFrom(s: seq<Byte>, o: nat, p: nat)
    decreases |s| - o
  {
    o + p < |s| && (SkipTo(s, o + p).Eof? || FailsFrom(s, SkipTo(s, o + p).pos, p))
  }

  /** Where the last line starts: right after the last newline, or at 0. */
  function TailStart(s: seq<Byte>, n: nat): (t: nat)
    requires n <= |s|
    ensures t <= n && NoNewline(s, t, n) && (t > 0 ==> IsNewline(s[t - 1]))
  {
    if n == 0 || IsNewline(s[n - 1]) then n else TailStart(s, n - 1)
  }

  /** A chunk starts at o: at the first offset, or where a scan beyond the preferred size stopped. */
  predicate ChunkStart(s: seq<Byte>, first: nat, p: nat, o: nat)
    decreases |s| - first
  {
    o == first || (first + p < |s| && SkipTo(s, first + p).Here? && ChunkStart(s, SkipTo(s, first + p).pos, p, o))
  }

  /** A chunk starts so late that the preferred size reaches into the unterminated last line, but not past it. */
  ghost predicate EndsInTail(s: seq<Byte>, first: nat, p: nat)
  {
    exists o: nat :: ChunkStart(s, first, p, o) && TailStart(s, |s|) <= o + p < |s|
  }

  lemma {:induction false} TailIff(s: seq<Byte>, i: nat)
    requires i < |s|
    ensures NoNewline(s, i, |s|) <==> TailStart(s, |s|) <= i
  {
    var t := TailStart(s, |s|);
    if i < t {
      assert IsNewline(s[t - 1]);
    }
  }

  lemma {:induction false} FailsIff(s: seq<Byte>, first: nat, p: nat)
    ensures FailsFrom(s, first, p) <==> EndsInTail(s, first, p)
    decreases |s| - first
  {
    if first + p < |s| {
      SkipFails(s, first + p);
      TailIff(s, first + p);
      if SkipTo(s, first + p).Eof? {
        assert ChunkStart(s, first, p, first);
      } else {
        var next := SkipTo(s, first + p).pos;
        FailsIff(s, next, p);
        if o: nat :| ChunkStart(s, next, p, o) && TailStart(s, |s|) <= o + p < |s| {
          assert ChunkStart(s, first, p, o);
        }
        if o: nat :| ChunkStart(s, first, p, o) && TailStart(s, |s|) <= o + p < |s| {
          assert ChunkStart(s, next, p, o);
        }
      }
    }
  }

  lemma {:induction false} FullChunksNext(s: seq<Byte>, rs: seq<Range>, end: nat, p: nat, stop: nat)
    requires FullChunks(s, rs, end, p) && end + p < stop <= |s| && IsNewline(s[stop - 1])
    ensures FullChunks(s, rs + [Range(end, stop)], stop, p)
  {
    var rs' := rs + [Range(end, stop)];
    assert rs'[..|rs'| - 1] == rs;
  }

  lemma {:induction false} Shorter(s: seq<Byte>, rs: seq<Range>, end: nat, p: nat)
    requires FullChunks(s, rs, end, p)
    ensures FullChunks(s, rs, end, 0)
    decreases |rs|
  {
    if rs != [] {
      Shorter(s, rs[..|rs| - 1], rs[|rs| - 1].start, p);
    }
  }

  lemma {:induction false} LastChunk(s: seq<Byte>, rs: seq<Range>, end: nat, p: nat)
    requires FullChunks(s, rs, end, p) && (end < |s| || s == [])
    ensures Partition(s, rs + [Range(end, |s|)])
  {
    Shorter(s, rs, end, p);
    var rs' := rs + [Range(end, |s|)];
    assert rs'[..|rs'| - 1] == rs;
  }

  /** Chunks longer than p fit below p * chunks fewer than `chunks` times. */
  lemma {:induction false} FullChunksFit(s: seq<Byte>, rs: seq<Range>, end: nat, p: nat)
    requires FullChunks(s, rs, end, p)
    ensures |rs| * p <= end
    decreases |rs|
  {
    if rs != [] {
      var init := rs[..|rs| - 1];
      FullChunksFit(s, init, rs[|rs| - 1].start, p);
      assert |rs| * p == |init| * p + p;
    }
  }

  lemma {:induction false} Multiples(a: nat, b: nat, p: nat)
    requires a >= b
    ensures a * p >= b * p
  {
    assert a * p == b * p + (a - b) * p;
  }

  /** So the chunks before the last are fewer than asked for. */
  lemma {:induction false} CountBound(s: seq<Byte>, rs: seq<Range>, end: nat, p: nat, chunks: nat)
    requires FullChunks(s, rs, end, p) && (end < |s| || s == []) && |s| < chunks * p
    ensures |rs| < chunks
  {
    FullChunksFit(s, rs, end, p);
    Multiples(if |rs| >= chunks then |rs| else chunks, chunks, p);
  }

  lemma {:induction false} PreferSize(size: nat, chunks: nat)
    requires chunks > 0
    ensures size < chunks * (size / chunks + 1)
  {
    assert size == chunks * (size / chunks) + size % chunks;
  }

  /**
   SplitLineChunks over the bytes of a file.  It fails exactly when some chunk
   starts at an o with tail start <= o + size / chunks + 1 < size.
   */
  method SplitLineChunks(s: seq<Byte>, chunks: int) returns (r: Result)
    ensures chunks <= 1 ==> r == Ranges([Range(0, |s|)])
    ensures chunks > 1 ==> (r.Failed? <==> EndsInTail(s, 0, |s| / chunks + 1))
    ensures r.Ranges? ==> Partition(s, r.ranges)
    ensures r.Ranges? && chunks > 1 ==> Tight(s, r.ranges, |s| / chunks + 1) && |r.ranges| <= chunks
  {
    if chunks <= 1 {
      LastChunk(s, [], 0, 0);
      return Ranges([Range(0, |s|)]);
    }
    PreferSize(|s|, chunks);
    FailsIff(s, 0, |s| / chunks + 1);
    r := SplitBy(s, chunks, |s| / chunks + 1);
  }

  /** nextRange: a chunk longer than p that ends right after a newline, after which things fail or not as before it. */
  method NextRange(s: seq<Byte>, start: nat, p: nat) returns (range: Range, failed: bool)
    requires start + p < |s|
    ensures failed ==> FailsFrom(s, start, p)
    ensures !failed ==>
      && range.start == start && start + p < range.stop <= |s| && IsNewline(s[range.stop - 1])
      && EndsTight(s, range, p)
      && (FailsFrom(s, start, p) <==> FailsFrom(s, range.stop, p))
  {
    var next := SkipPartialLine(s, start + p);
    if next.Eof? {
      return Range(0, 0), true;
    }
    return Range(start, next.pos), false;
  }

  /** Full chunks up to an offset, as tight as they are. */
  ghost predicate SplitSoFar(s: seq<Byte>, rs: seq<Range>, offset: nat, p: nat)
  {
    FullChunks(s, rs, offset, p) && Tight(s, rs, p) && (offset < |s| || s == [])
  }

  ghost predicate WholeSplit(s: seq<Byte>, rs: seq<Range>, p: nat, chunks: nat)
  {
    Partition(s, rs) && Tight(s, rs, p) && |rs| <= chunks
  }

  lemma {:induction false} SplitEnds(s: seq<Byte>, rs: seq<Range>, offset: nat, p: nat, chunks: nat, r: Range)
    requires SplitSoFar(s, rs, offset, p) && |s| < chunks * p && r == Range(offset, |s|) && EndsTight(s, r, p)
    ensures WholeSplit(s, rs + [r], p, chunks)
  {
    CountBound(s, rs, offset, p, chunks);
    LastChunk(s, rs, offset, p);
    TightNext(s, rs, p, r);
  }

  lemma {:induction false} SplitGrows(s: seq<Byte>, rs: seq<Range>, offset: nat, p: nat, r: Range)
    requires SplitSoFar(s, rs, offset, p) && r.start == offset && EndsTight(s, r, p)
    requires offset + p < r.stop < |s| && IsNewline(s[r.stop - 1])
    ensures SplitSoFar(s, rs + [r], r.stop, p)
  {
    FullChunksNext(s, rs, offset, p, r.stop);
    TightNext(s, rs, p, r);
  }

  /** The loop, for a preferred size. */
  method SplitBy(s: seq<Byte>, chunks: nat, preferSize: nat) returns (r: Result)
    requires |s| < chunks * preferSize
    ensures r.Failed? <==> FailsFrom(s, 0, preferSize)
    ensures r.Ranges? ==> WholeSplit(s, r.ranges, preferSize, chunks)
  {
    var ranges: seq<Range> := [];
    var offset := 0;
    ghost var fails := FailsFrom(s, 0, preferSize);
    while true
      invariant SplitSoFar(s, ranges, offset, preferSize)
      invariant fails <==> FailsFrom(s, offset, preferSize)
      decreases |s| - offset
    {
      if offset + preferSize >= |s| {
        SplitEnds(s, ranges, offset, preferSize, chunks, Range(offset, |s|));
        return Ranges(ranges + [Range(offset, |s|)]);
      }
      var range, failed := NextRange(s, offset, preferSize);
      if failed {
        return Failed;
      }
      if range.stop == |s| {
        SplitEnds(s, ranges, offset, preferSize, chunks, range);
        return Ranges(ranges + [range]);
      }
      SplitGrows(s, ranges, offset, preferSize, range);
      ranges, offset := ranges + [range], range.stop;
    }
  }

  // -------------------------------------------------------------- when it succeeds

  /** A file that ends in a newline is always split. */
  lemma {:induction false} TerminatedNeverFails(s: seq<Byte>, o: nat, p: nat)
    requires s == [] || IsNewline(s[|s| - 1])
    ensures !FailsFrom(s, o, p)
    decreases |s| - o
  {
    if o + p < |s| {
      SkipFails(s, o + p);
      TerminatedNeverFails(s, SkipTo(s, o + p).pos, p);
    }
  }

  /** A last line without a newline that is longer than the preferred size always makes it fail. */
  lemma {:induction false} LongTailFails(s: seq<Byte>, tail: nat, o: nat, p: nat)
    requires o <= tail && tail + p < |s| && NoNewline(s, tail, |s|)
    ensures FailsFrom(s, o, p)
    decreases |s| - o
  {
    if SkipTo(s, o + p).Here? {
      LongTailFails(s, tail, SkipTo(s, o + p).pos, p);
    }
  }
}
