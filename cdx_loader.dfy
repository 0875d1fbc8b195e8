/** The loader itself: the line-tokenizing body of `CDXLoader.getNext`, which fills a
    ten-slot delimiter array in place, and the outer loop that pulls lines from a reader
    until one yields a record. */
module CdxLoader {
  import opened CdxFields
  import opened CdxTokens
  import opened CdxRecord

  /** `System.arraycopy`: copies `length` elements of `src` from `srcPos` into `dest` from
      `destPos`. Overlapping ranges of one array behave as if copied through a temporary. */
  method ArrayCopy(src: array<int>, srcPos: int, dest: array<int>, destPos: int, length: int)
    requires 0 <= srcPos && 0 <= destPos && 0 <= length
    requires srcPos + length <= src.Length && destPos + length <= dest.Length
    modifies dest
    ensures dest[..] == old(dest[..destPos]) + old(src[srcPos..srcPos + length]) + old(dest[destPos + length..])
  {
    var tmp := src[srcPos..srcPos + length];
    forall k | destPos <= k < destPos + length {
      dest[k] := tmp[k - destPos];
    }
    assert dest[..] == old(dest[..destPos]) + tmp + old(dest[destPos + length..]);
  }

  /** Records the space at position `i` in the first `j` slots of `spidx`: when all ten
      slots are taken, slots 7..9 first slide left over slot 6, freeing the last slot. */
  method PushSpace(spidx: array<int>, j: int, i: int) returns (j': int)
    requires spidx.Length == DELIMITERS && 0 <= j <= DELIMITERS
    modifies spidx
    ensures j' == if j < DELIMITERS then j + 1 else DELIMITERS
    ensures spidx[..j'] == (if j < DELIMITERS then old(spidx[..j]) else Slide(old(spidx[..j]))) + [i]
  {
    j' := j;
    if j' == spidx.Length {
      assert spidx[..] == old(spidx[..j]);
      ArrayCopy(spidx, REDIRECT + 1, spidx, REDIRECT, spidx.Length - REDIRECT - 1);
      j' := j' - 1;
    }
    spidx[j'] := i;
    j' := j' + 1;
  }

  /** The `for` loop over the bytes of the line: `spidx[..j]` ends up holding the line's space
      positions, all of them when there are at most ten, otherwise the first six and the last four. */
  method ScanSpaces(l: seq<byte>, end: int) returns (spidx: array<int>, j: int)
    requires 0 <= end <= |l|
    ensures fresh(spidx) && spidx.Length == DELIMITERS
    ensures j == if |Spaces(l[..end])| < DELIMITERS then |Spaces(l[..end])| else DELIMITERS
    ensures spidx[..j] == Window(Spaces(l[..end]))
  {
    spidx := new int[DELIMITERS];
    j := 0;
    ghost var sp: seq<int> := [];
    for i := 0 to end
      invariant sp == Spaces(l[..i])
      invariant j == if |sp| < DELIMITERS then |sp| else DELIMITERS
      invariant spidx[..j] == Window(sp)
    {
      SpacesStep(l, i);
      if l[i] == SPACE {
        if j == DELIMITERS {
          WindowSlide(sp, i);
        }
        j := PushSpace(spidx, j, i);
        sp := sp + [i];
      }
    }
  }

  /** The `tuple.set` loop: column k is `bytearray` over the bytes between delimiter k-1 and
      delimiter k, the first column starting at 0 and the last one ending at `end`. */
  method CutFields(l: seq<byte>, end: int, spidx: array<int>) returns (fields: seq<Field>)
    requires 0 <= end <= |l|
    requires spidx.Length == DELIMITERS && Cuts(l[..end], spidx[..])
    ensures fields == Fields(l[..end], spidx[..])
  {
    ghost var s, w := l[..end], spidx[..];
    var tuple := new Field[DELIMITERS + 1](_ => Null);
    var start := 0;
    for jj := 0 to spidx.Length
      invariant start == PieceStart(w, jj)
      invariant forall k :: 0 <= k < jj ==> tuple[k] == Fields(s, w)[k]
    {
      FieldsAt(s, w, jj);
      ByteArrayPrefix(l, end, start, spidx[jj]);
      tuple[jj] := ByteArray(l, start, spidx[jj]);
      start := spidx[jj] + 1;
    }
    FieldsAt(s, w, DELIMITERS);
    ByteArrayPrefix(l, end, start, end);
    tuple[DELIMITERS] := ByteArray(l, start, end);
    fields := tuple[..];
  }

  /** One pass of the body of `getNext` over the line `l` of logical length `length`:
      trim a carriage return, skip blank and header lines, record the space positions in
      `spidx` (keeping the first six and the last four), skip lines with fewer than ten
      spaces, and cut the line into its eleven columns. */
  method TokenizeLine(l: seq<byte>, length: int) returns (r: Outcome)
    requires 0 <= length <= |l|
    ensures r == Tokenize(l, length)
  {
    var end := length;
    if end > 0 && l[end - 1] == CR {
      end := end - 1;
    }
    if end == 0 {
      return Skip(Blank);
    }
    if end > 5 && l[0] == SPACE && l[1] == 67 && l[2] == 68 && l[3] == 88 && l[4] == SPACE {
      assert l[..end][..5] == HEADER_PREFIX;
      return Skip(Header);
    }
    assert !IsHeader(l[..end]);
    var spidx, j := ScanSpaces(l, end);
    if j < spidx.Length {
      return Skip(TooFewFields);
    }
    assert spidx[..] == Window(Spaces(l[..end]));
    WindowCuts(l[..end]);
    var fields := CutFields(l, end, spidx);
    r := Record(fields);
  }

  /** A line reader (Hadoop's line record reader over a split), reduced to the lines it will
      hand out and how many of them it has handed out so far. */
  class LineReader {
    var lines: seq<RawLine>
    var pos: int

    ghost predicate Valid()
      reads this
    {
      0 <= pos <= |lines| && forall k :: 0 <= k < |lines| ==> lines[k].Valid()
    }

    constructor (lines: seq<RawLine>)
      requires forall k :: 0 <= k < |lines| ==> lines[k].Valid()
      ensures Valid() && this.lines == lines && pos == 0
    {
      this.lines := lines;
      pos := 0;
    }

    /** `nextKeyValue`: advance to the next line, or report that there is none. */
    method NextKeyValue() returns (more: bool)
      requires Valid()
      modifies this`pos
      ensures Valid()
      ensures more <==> old(pos) < |lines|
      ensures pos == if more then old(pos) + 1 else old(pos)
    {
      more := pos < |lines|;
      if more {
        pos := pos + 1;
      }
    }

    /** `getCurrentValue`: the line the last successful `NextKeyValue` advanced to. */
    function CurrentValue(): (v: RawLine)
      reads this
      requires Valid() && 0 < pos
      ensures v.Valid() && v == lines[pos - 1]
    {
      lines[pos - 1]
    }
  }

  /** The Pig load function, holding the reader it was prepared with. */
  class Loader {
    const reader: LineReader

    constructor (reader: LineReader)
      ensures this.reader == reader
    {
      this.reader := reader;
    }

    /** `getNext`: the record of the first remaining line that is not skipped, passing over
        every skipped line; `None` (Java `null`) only once the reader is exhausted. */
    method GetNext() returns (t: Option<seq<Field>>)
      requires reader.Valid()
      modifies reader
      ensures reader.Valid() && reader.lines == old(reader.lines)
      ensures t.None? ==> reader.pos == |reader.lines| && AllSkipped(reader.lines, old(reader.pos), reader.pos)
      ensures t.Some? ==> old(reader.pos) < reader.pos &&
                            AllSkipped(reader.lines, old(reader.pos), reader.pos - 1) &&
                            reader.lines[reader.pos - 1].Tokenized() == Record(t.value)
    {
      ghost var lines, start := reader.lines, reader.pos;
      while true
        invariant reader.Valid() && reader.lines == lines
        invariant start <= reader.pos
        invariant AllSkipped(lines, start, reader.pos)
        decreases |lines| - reader.pos
      {
        var more := reader.NextKeyValue();
        if !more {
          return None;
        }
        var val := reader.CurrentValue();
        var r := TokenizeLine(val.bytes, val.length);
        assert r == lines[reader.pos - 1].Tokenized();
        if r.Record? {
          return Some(r.fields);
        }
        SkippedOneMore(lines, start, reader.pos - 1);
      }
    }
  }
}
