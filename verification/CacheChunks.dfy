/** Assembling an archive from uploaded chunks in a temporary file. */
module CacheChunks {
  import opened Wrappers
  import opened Text

  type Bytes = seq<bv8>

  function Zeros(n: nat): Bytes { seq(n, _ => 0) }

  /** Seek to `start` and write: a hole before it reads as zeros; writing nothing changes nothing. */
  function WriteAt(file: Bytes, start: nat, body: Bytes): Bytes {
    if body == [] then file
    else
      (if start <= |file| then file[..start] else file + Zeros(start - |file|))
      + body
      + (if start + |body| < |file| then file[start + |body|..] else [])
  }

  /** The byte at a position, zero beyond the end. */
  function At(file: Bytes, p: nat): bv8 { if p < |file| then file[p] else 0 }

  predicate Covers(start: nat, body: Bytes, p: nat) { start <= p < start + |body| }

  lemma WriteAtShape(file: Bytes, start: nat, body: Bytes)
    ensures |WriteAt(file, start, body)| == if body == [] || start + |body| < |file| then |file| else start + |body|
    ensures forall p: nat ::
      At(WriteAt(file, start, body), p) == if Covers(start, body, p) then body[p - start] else At(file, p)
  {
  }

  /** The body stands from `start` on; elsewhere the old bytes, and zeros in a hole between. */
  ghost predicate Overwritten(file: Bytes, start: nat, body: Bytes, file': Bytes) {
    && |file'| == (if body == [] || start + |body| <= |file| then |file| else start + |body|)
    && forall p | 0 <= p < |file'| ::
         file'[p] == if start <= p < start + |body| then body[p - start] else if p < |file| then file[p] else 0
  }

  lemma WriteAtOverwrites(file: Bytes, start: nat, body: Bytes)
    ensures Overwritten(file, start, body, WriteAt(file, start, body))
  {
  }

  lemma SameBytes(a: Bytes, b: Bytes)
    requires |a| == |b| && forall p: nat :: At(a, p) == At(b, p)
    ensures a == b
  {
    forall p | 0 <= p < |a|
      ensures a[p] == b[p]
    {
      assert At(a, p) == At(b, p);
    }
  }

  /** Writes to disjoint ranges commute, on any file. */
  lemma DisjointWritesCommute(file: Bytes, s1: nat, b1: Bytes, s2: nat, b2: Bytes)
    requires s1 + |b1| <= s2 || s2 + |b2| <= s1
    ensures WriteAt(WriteAt(file, s1, b1), s2, b2) == WriteAt(WriteAt(file, s2, b2), s1, b1)
  {
    var x, y := WriteAt(file, s1, b1), WriteAt(file, s2, b2);
    WriteAtShape(file, s1, b1);
    WriteAtShape(file, s2, b2);
    WriteAtShape(x, s2, b2);
    WriteAtShape(y, s1, b1);
    SameBytes(WriteAt(x, s2, b2), WriteAt(y, s1, b1));
  }

  datatype Chunk = Chunk(start: nat, body: Bytes)

  /** The file after a list of uploads, starting from an empty file. */
  function Assemble(chunks: seq<Chunk>): Bytes {
    if chunks == [] then []
    else
      var c := chunks[|chunks| - 1];
      WriteAt(Assemble(chunks[..|chunks| - 1]), c.start, c.body)
  }

  /** The chunk is a slice of the archive. */
  predicate SliceOf(c: Chunk, archive: Bytes) {
    c.start + |c.body| <= |archive| && c.body == archive[c.start..c.start + |c.body|]
  }

  ghost predicate AllSlices(chunks: seq<Chunk>, archive: Bytes) {
    forall c | c in chunks :: SliceOf(c, archive)
  }

  ghost predicate Touched(chunks: seq<Chunk>, p: nat) {
    exists c :: c in chunks && Covers(c.start, c.body, p)
  }

  lemma {:induction false} AssembleShape(chunks: seq<Chunk>, archive: Bytes, p: nat)
    requires AllSlices(chunks, archive)
    ensures |Assemble(chunks)| <= |archive|
    ensures At(Assemble(chunks), p) == if Touched(chunks, p) then At(archive, p) else 0
    ensures Touched(chunks, p) ==> p < |Assemble(chunks)|
  {
    if chunks != [] {
      var n := |chunks| - 1;
      var c, before := chunks[n], chunks[..n];
      AssembleShape(before, archive, p);
      WriteAtShape(Assemble(before), c.start, c.body);
      assert chunks == before + [c];
      TouchedAppend(before, c, p);
      assert SliceOf(c, archive);
    }
  }

  lemma TouchedAppend(chunks: seq<Chunk>, c: Chunk, p: nat)
    ensures Touched(chunks + [c], p) <==> Touched(chunks, p) || Covers(c.start, c.body, p)
  {
    var longer := chunks + [c];
    assert longer[|chunks|] == c;
    if Touched(chunks, p) {
      var d :| d in chunks && Covers(d.start, d.body, p);
      assert d in longer;
    }
  }

  /**
   Chunks of an archive that together cover it assemble to exactly the archive, in any
   order, with overlaps and repeats.
   */
  lemma AssembleIsArchive(chunks: seq<Chunk>, archive: Bytes)
    requires AllSlices(chunks, archive)
    requires forall p: nat | p < |archive| :: Touched(chunks, p)
    ensures Assemble(chunks) == archive
  {
    forall p: nat
      ensures At(Assemble(chunks), p) == At(archive, p)
    {
      AssembleShape(chunks, archive, p);
    }
    AssembleShape(chunks, archive, 0);
    if |archive| > 0 {
      AssembleShape(chunks, archive, |archive| - 1);
    }
    SameBytes(Assemble(chunks), archive);
  }

  /** Any reordering of chunks that cover an archive leaves the same file. */
  lemma OrderDoesNotMatter(chunks: seq<Chunk>, shuffled: seq<Chunk>, archive: Bytes)
    requires AllSlices(chunks, archive) && forall p: nat | p < |archive| :: Touched(chunks, p)
    requires multiset(chunks) == multiset(shuffled)
    ensures Assemble(shuffled) == Assemble(chunks) == archive
  {
    forall c
      ensures c in chunks <==> c in shuffled
    {
      assert c in multiset(chunks) <==> c in multiset(shuffled);
    }
    forall p: nat | p < |archive|
      ensures Touched(shuffled, p)
    {
      assert Touched(chunks, p);
      var c :| c in chunks && Covers(c.start, c.body, p);
      assert c in shuffled;
    }
    AssembleIsArchive(chunks, archive);
    AssembleIsArchive(shuffled, archive);
  }

  // ---- The Content-Range header ----

  /** `bytes <start>-…`: the number before the first dash. */
  function ParseContentRangeStart(range: string): Option<nat> {
    if !("bytes " <= range) then None
    else
      var rest := range[6..];
      var dash := IndexOf(rest, '-');
      if dash == |rest| then None else ParseU64(rest[..dash])
  }

  function ContentRange(start: nat, end: nat): string {
    "bytes " + Decimal(start) + "-" + Decimal(end) + "/*"
  }

  /** The start offset printed in a Content-Range header (RFC 9110, section 14.4) is read back. */
  lemma RangeRoundTrip(start: nat, end: nat)
    ensures ParseContentRangeStart(ContentRange(start, end)) == if start < U64_LIMIT then Some(start) else None
  {
    var range, tail := ContentRange(start, end), "-" + Decimal(end) + "/*";
    ValueOfNumeral(start, 10);
    assert '-' !in Decimal(start);
    assert range == "bytes " + (Decimal(start) + tail);
    assert range[6..] == Decimal(start) + tail;
    IndexOfAfter(Decimal(start), tail, '-');
    assert (Decimal(start) + tail)[..|Decimal(start)|] == Decimal(start);
    ParseOfDecimal(start);
  }

  /** A header is accepted exactly if it is `bytes `, a 64-bit number, a dash and anything. */
  lemma RangeAcceptedIff(range: string, start: nat)
    ensures ParseContentRangeStart(range) == Some(start) <==>
      exists number, tail ::
        range == "bytes " + number + "-" + tail && '-' !in number && ParseU64(number) == Some(start)
  {
    if ParseContentRangeStart(range) == Some(start) {
      var rest := range[6..];
      var dash := IndexOf(rest, '-');
      IndexOfFirst(rest, '-');
      assert rest == rest[..dash] + "-" + rest[dash + 1..];
      assert range == "bytes " + rest;
      assert range == "bytes " + rest[..dash] + "-" + rest[dash + 1..];
    }
    forall number, tail | range == "bytes " + number + "-" + tail && '-' !in number
      ensures ParseContentRangeStart(range) == ParseU64(number)
    {
      assert range == "bytes " + (number + ("-" + tail));
      assert range[6..] == number + ("-" + tail);
      IndexOfAfter(number, "-" + tail, '-');
      assert range[6..][..|number|] == number;
    }
  }
}
