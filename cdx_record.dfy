/** What `CDXLoader.getNext` makes of one raw line, stated as pure functions, and the
    properties of that outcome: when a line is skipped, how its eleven columns lie on the
    line, and which space-separated tokens they hold. */
module CdxRecord {
  import opened CdxFields
  import opened CdxTokens

  /** Number of delimiter slots (`spidx.length`); a record has one column more. */
  const DELIMITERS: int := 10
  /** The redirect-URL column, the only one that may swallow extra spaces. */
  const REDIRECT: int := 6

  /** The first five bytes of a CDX header line: " CDX ". */
  const HEADER_PREFIX: seq<byte> := [SPACE, 67, 68, 88, SPACE]

  /** A line as handed out by the line reader: a buffer that may be longer than the line. */
  datatype RawLine = RawLine(bytes: seq<byte>, length: int)
  {
    predicate Valid() { 0 <= length <= |bytes| }

    /** What the loader makes of this line. */
    function Tokenized(): Outcome
      requires Valid()
    {
      Tokenize(bytes, length)
    }
  }

  /** Every line of lines[lo..hi) is a well-formed line that is skipped. */
  predicate AllSkipped(lines: seq<RawLine>, lo: int, hi: int)
  {
    forall k :: lo <= k < hi ==> 0 <= k < |lines| && lines[k].Valid() && lines[k].Tokenized().Skip?
  }

  /** A skipped line after a skipped stretch extends the stretch. */
  lemma {:induction false} SkippedOneMore(lines: seq<RawLine>, lo: int, hi: int)
    requires AllSkipped(lines, lo, hi) && 0 <= lo <= hi < |lines|
    requires lines[hi].Valid() && lines[hi].Tokenized().Skip?
    ensures AllSkipped(lines, lo, hi + 1)
  {
    forall k | lo <= k < hi + 1
      ensures 0 <= k < |lines| && lines[k].Valid() && lines[k].Tokenized().Skip?
    {
      if k < hi {
        assert 0 <= k < |lines| && lines[k].Valid() && lines[k].Tokenized().Skip?;
      }
    }
  }

  datatype SkipReason = Blank | Header | TooFewFields

  /** A line either yields no record, or a record of columns that are byte ranges of the line. */
  datatype Outcome = Skip(reason: SkipReason) | Record(fields: seq<Field>)

  /** The logical length after dropping at most one trailing carriage return. */
  function EffectiveEnd(l: seq<byte>, length: int): (end: int)
    requires 0 <= length <= |l|
    ensures end == length || end == length - 1
    ensures end == length - 1 <==> length > 0 && l[length - 1] == CR
    ensures 0 <= end
  {
    if length > 0 && l[length - 1] == CR then length - 1 else length
  }

  /** A header line is longer than five bytes and starts with " CDX ". */
  predicate IsHeader(s: seq<byte>): (h: bool)
    ensures h <==> |s| > 5 && s[0] == SPACE && s[1] == 67 && s[2] == 68 && s[3] == 88 && s[4] == SPACE
  {
    |s| > 5 && s[..5] == HEADER_PREFIX
  }

  /** The delimiters the scan keeps of the space positions `sp`: all of them while there
      are at most ten, otherwise the first six and the last four. */
  function Window(sp: seq<int>): (w: seq<int>)
    ensures |w| == if |sp| <= DELIMITERS then |sp| else DELIMITERS
  {
    if |sp| <= DELIMITERS then sp else sp[..REDIRECT] + sp[|sp| - 4..]
  }

  /** Slot 6 of a full window overwritten by the slots after it sliding left by one. */
  function Slide(w: seq<int>): (v: seq<int>)
    requires |w| == DELIMITERS
    ensures |v| == DELIMITERS - 1
    ensures forall k :: 0 <= k < REDIRECT ==> v[k] == w[k]
    ensures forall k :: REDIRECT <= k < DELIMITERS - 1 ==> v[k] == w[k + 1]
  {
    w[..REDIRECT] + w[REDIRECT + 1..]
  }

  /** One more space on a full window: the window slides and the new space takes the last slot. */
  lemma {:induction false} WindowSlide(sp: seq<int>, i: int)
    requires |sp| >= DELIMITERS
    ensures Window(sp + [i]) == Slide(Window(sp)) + [i]
  {
    var w := Window(sp);
    assert (sp + [i])[..REDIRECT] == sp[..REDIRECT];
    assert (sp + [i])[|sp| + 1 - 4..] == sp[|sp| - 3..] + [i];
    if |sp| == DELIMITERS {
      assert w[REDIRECT + 1..] == sp[|sp| - 3..];
    } else {
      assert w[REDIRECT + 1..] == sp[|sp| - 3..];
    }
  }

  /** Slot k of a full window: one of the first six spaces, or one of the last four. */
  lemma {:induction false} WindowAt(sp: seq<int>, k: int)
    requires |sp| >= DELIMITERS && 0 <= k < DELIMITERS
    ensures Window(sp)[k] == sp[if k < REDIRECT then k else |sp| - DELIMITERS + k]
  {
  }

  /** Every column of a full window other than the redirect URL is one piece of the line cut at
      all of its spaces: the k-th for k < 6, the (k - 10)-th from the end for k > 6. */
  lemma {:induction false} WindowPiece(sp: seq<int>, k: int, n: int)
    requires |sp| >= DELIMITERS && 0 <= k <= DELIMITERS && k != REDIRECT
    ensures var j := if k < REDIRECT then k else |sp| - DELIMITERS + k;
            0 <= j <= |sp| &&
            PieceStart(Window(sp), k) == PieceStart(sp, j) && PieceEnd(Window(sp), k, n) == PieceEnd(sp, j, n)
  {
    if k > 0 {
      WindowAt(sp, k - 1);
    }
    if k < DELIMITERS {
      WindowAt(sp, k);
    }
  }

  /** The kept delimiters of a line are still increasing space positions of it. */
  lemma {:induction false} WindowCuts(s: seq<byte>)
    ensures Cuts(s, Spaces(s))
    ensures Cuts(s, Window(Spaces(s)))
  {
    SpacesCuts(s);
    WindowOfCuts(s, Spaces(s));
  }

  /** Keeping the first six and last four of increasing space positions keeps them increasing. */
  lemma {:induction false} WindowOfCuts(s: seq<byte>, sp: seq<int>)
    requires Cuts(s, sp)
    ensures Cuts(s, Window(sp))
  {
    if |sp| > DELIMITERS {
      var w := Window(sp);
      forall a, b | 0 <= a < b < |w|
        ensures w[a] < w[b]
      {
        var ia := if a < REDIRECT then a else |sp| - 10 + a;
        var ib := if b < REDIRECT then b else |sp| - 10 + b;
        assert w[a] == sp[ia] && w[b] == sp[ib] && ia < ib;
      }
    }
  }

  /** The eleven columns of a line `s` cut at the ten delimiters `d`. */
  function Fields(s: seq<byte>, d: seq<int>): (fs: seq<Field>)
    requires |d| == DELIMITERS && Cuts(s, d)
    ensures |fs| == DELIMITERS + 1
    ensures forall k :: 0 <= k < |fs| ==> Within(fs[k], |s|)
  {
    seq(DELIMITERS + 1, k requires 0 <= k <= DELIMITERS => ByteArray(s, PieceStart(d, k), PieceEnd(d, k, |s|)))
  }

  /** Column k of a record is `bytearray` applied to the k-th piece. */
  lemma {:induction false} FieldsAt(s: seq<byte>, d: seq<int>, k: int)
    requires |d| == DELIMITERS && Cuts(s, d)
    requires 0 <= k <= DELIMITERS
    ensures 0 <= PieceStart(d, k) <= PieceEnd(d, k, |s|) <= |s|
    ensures Fields(s, d)[k] == ByteArray(s, PieceStart(d, k), PieceEnd(d, k, |s|))
  {
    PieceBounds(s, d, k);
  }

  /** The outcome for a line whose carriage return is already trimmed: skipped when blank,
      when a header, or when it has fewer than ten spaces; otherwise its eleven columns. */
  function Classify(s: seq<byte>): (r: Outcome)
    ensures r.Record? ==> |r.fields| == DELIMITERS + 1
  {
    if |s| == 0 then Skip(Blank)
    else if IsHeader(s) then Skip(Header)
    else
      var sp := Spaces(s);
      if |sp| < DELIMITERS then Skip(TooFewFields)
      else
        WindowCuts(s);
        Record(Fields(s, Window(sp)))
  }

  /** The outcome of one raw line: the first `length` bytes of the buffer, less a trailing
      carriage return. */
  function Tokenize(l: seq<byte>, length: int): (r: Outcome)
    requires 0 <= length <= |l|
    ensures length == 0 || (length == 1 && l[0] == CR) ==> r == Skip(Blank)
    ensures r.Record? ==> |r.fields| == DELIMITERS + 1 &&
                          forall k :: 0 <= k <= DELIMITERS ==> Within(r.fields[k], length)
  {
    Classify(l[..EffectiveEnd(l, length)])
  }

  /** A line is skipped exactly for the three reasons, tested in this order; "too few fields"
      means fewer than eleven space-separated tokens. */
  lemma {:induction false} SkipCases(l: seq<byte>, length: int)
    requires 0 <= length <= |l|
    ensures var end := EffectiveEnd(l, length);
            var s := l[..end];
            var r := Tokenize(l, length);
            (r == Skip(Blank) <==> end == 0) &&
            (r == Skip(Header) <==> end > 0 && IsHeader(s)) &&
            (r == Skip(TooFewFields) <==> end > 0 && !IsHeader(s) && |Split(s)| < DELIMITERS + 1) &&
            (r.Record? <==> end > 0 && !IsHeader(s) && |Split(s)| >= DELIMITERS + 1)
  {
    SplitIsPieces(l[..EffectiveEnd(l, length)]);
  }

  /** The fields of a record read the same out of the whole buffer as out of the trimmed line. */
  lemma {:induction false} BufferValues(l: seq<byte>, length: int, k: int)
    requires 0 <= length <= |l| && Tokenize(l, length).Record?
    requires 0 <= k <= DELIMITERS
    ensures var s := l[..EffectiveEnd(l, length)];
            var f := Tokenize(l, length).fields[k];
            (f.Range? ==> 0 <= f.lo <= f.hi <= |s|) && Value(l, f) == Value(s, f)
  {
    var s := l[..EffectiveEnd(l, length)];
    var f := Tokenize(l, length).fields[k];
    var w := Window(Spaces(s));
    WindowCuts(s);
    assert Tokenize(l, length).fields == Fields(s, w);
    FieldsAt(s, w, k);
    assert f == ByteArray(s, PieceStart(w, k), PieceEnd(w, k, |s|));
    if f.Range? {
      var end := EffectiveEnd(l, length);
      assert 0 <= f.lo <= f.hi <= end == |s|;
      forall i | 0 <= i < f.hi - f.lo
        ensures l[f.lo..f.hi][i] == s[f.lo..f.hi][i]
      {
        assert s[f.lo + i] == l[f.lo + i];
      }
      assert l[f.lo..f.hi] == s[f.lo..f.hi];
    }
  }

  /** The columns of a record are the pieces of the line between its kept delimiters, with
      the placeholder rule applied; each column holds the bytes of its range of the line. */
  lemma {:induction false} RecordColumns(s: seq<byte>, k: int)
    requires Classify(s).Record?
    requires 0 <= k <= DELIMITERS
    ensures var w := Window(Spaces(s));
            var f := Classify(s).fields[k];
            |w| == DELIMITERS && Cuts(s, w) &&
            (f.Range? ==> f.lo == PieceStart(w, k) && f.hi == PieceEnd(w, k, |s|)) &&
            Value(s, f) == NullIfPlaceholder(Pieces(s, w)[k])
  {
    var w := Window(Spaces(s));
    WindowCuts(s);
    assert Classify(s).fields == Fields(s, w);
    FieldsAt(s, w, k);
    PieceBounds(s, w, k);
    ByteArrayValue(s, PieceStart(w, k), PieceEnd(w, k, |s|));
  }

  /** The column ranges of a record tile the line: the first starts at 0, the last ends at the
      end of the line, and neighbours are separated by exactly one space byte. */
  lemma {:induction false} RecordCoversLine(s: seq<byte>)
    requires Classify(s).Record?
    ensures var w := Window(Spaces(s));
            |w| == DELIMITERS &&
            PieceStart(w, 0) == 0 && PieceEnd(w, DELIMITERS, |s|) == |s| &&
            (forall k :: 0 <= k <= DELIMITERS ==> PieceStart(w, k) <= PieceEnd(w, k, |s|)) &&
            (forall k :: 0 <= k < DELIMITERS ==>
               PieceEnd(w, k, |s|) + 1 == PieceStart(w, k + 1) && s[PieceEnd(w, k, |s|)] == SPACE)
  {
    WindowCuts(s);
  }

  /** Round trip: gluing the eleven column ranges of a record back together with single spaces
      gives the line again. */
  lemma {:induction false} RecordRoundTrip(s: seq<byte>)
    requires Classify(s).Record?
    ensures Cuts(s, Window(Spaces(s)))
    ensures Join(Pieces(s, Window(Spaces(s)))) == s
  {
    WindowCuts(s);
    JoinAllPieces(s, Window(Spaces(s)));
  }

  /** A line without empty tokens: it neither starts nor ends with a space and has no two
      spaces in a row. */
  predicate NoEmptyToken(s: seq<byte>)
  {
    forall i :: 0 <= i < |s| && s[i] == SPACE ==> 0 < i < |s| - 1 && s[i + 1] != SPACE
  }

  /** How a column is written in a CDX line: its bytes, or the placeholder `-` for no value. */
  function Shown(v: Option<seq<byte>>): (t: seq<byte>)
    ensures v.None? ==> t == [DASH]
    ensures v.Some? ==> t == v.value
  {
    if v.None? then [DASH] else v.value
  }

  /** The columns of a record written out, each as `Shown` of its value. */
  function Render(s: seq<byte>, fs: seq<Field>): (out: seq<seq<byte>>)
    requires forall k :: 0 <= k < |fs| ==> Within(fs[k], |s|)
    ensures |out| == |fs|
    ensures forall k :: 0 <= k < |fs| ==> out[k] == Shown(Value(s, fs[k]))
  {
    seq(|fs|, k requires 0 <= k < |fs| => Shown(Value(s, fs[k])))
  }

  /** In a line without empty tokens no column range is empty. */
  lemma {:induction false} PieceNotEmpty(s: seq<byte>, k: int)
    requires Classify(s).Record? && NoEmptyToken(s)
    requires 0 <= k <= DELIMITERS
    ensures Cuts(s, Window(Spaces(s)))
    ensures Pieces(s, Window(Spaces(s)))[k] != []
  {
    var w := Window(Spaces(s));
    WindowCuts(s);
    PieceBounds(s, w, k);
    if k > 0 {
      var c := w[k - 1];
      assert s[c] == SPACE;
      if k < DELIMITERS {
        assert c < w[k] && s[w[k]] == SPACE;
      }
    } else {
      assert s[w[0]] == SPACE;
    }
  }

  /** Round trip on values: writing out the eleven columns of a record, `-` for no value, and
      joining them with single spaces gives back a line without empty tokens. */
  lemma {:induction false} RenderRoundTrip(s: seq<byte>)
    requires Classify(s).Record? && NoEmptyToken(s)
    ensures forall k :: 0 <= k <= DELIMITERS ==> Within(Classify(s).fields[k], |s|)
    ensures Join(Render(s, Classify(s).fields)) == s
  {
    var w := Window(Spaces(s));
    var fs := Classify(s).fields;
    WindowCuts(s);
    assert fs == Fields(s, w);
    var ps := Pieces(s, w);
    forall k | 0 <= k <= DELIMITERS
      ensures Shown(Value(s, fs[k])) == ps[k]
    {
      RecordColumns(s, k);
      PieceNotEmpty(s, k);
    }
    assert Render(s, fs) == ps;
    RecordRoundTrip(s);
  }

  /** Columns 0..5 are the first six space-separated tokens of the line. */
  lemma {:induction false} LeadingColumn(s: seq<byte>, k: int)
    requires Classify(s).Record?
    requires 0 <= k < REDIRECT
    ensures |Split(s)| >= DELIMITERS + 1
    ensures Value(s, Classify(s).fields[k]) == NullIfPlaceholder(Split(s)[k])
  {
    var sp := Spaces(s);
    var w := Window(sp);
    SplitIsPieces(s);
    RecordColumns(s, k);
    WindowPiece(sp, k, |s|);
    PieceBounds(s, w, k);
    PieceBounds(s, sp, k);
  }

  /** Columns 7..10 are the last four space-separated tokens of the line, however many
      spaces the redirect URL swallowed. */
  lemma {:induction false} TrailingColumn(s: seq<byte>, k: int)
    requires Classify(s).Record?
    requires REDIRECT < k <= DELIMITERS
    ensures |Split(s)| >= DELIMITERS + 1
    ensures Value(s, Classify(s).fields[k]) == NullIfPlaceholder(Split(s)[|Split(s)| - 11 + k])
  {
    var sp := Spaces(s);
    var w := Window(sp);
    var j := |sp| - DELIMITERS + k;
    SplitIsPieces(s);
    RecordColumns(s, k);
    WindowPiece(sp, k, |s|);
    PieceBounds(s, w, k);
    PieceBounds(s, sp, j);
    assert |Split(s)| - 11 + k == j;
  }

  /** Column 6, the redirect URL, is every token between the first six and the last four,
      glued back together with the spaces that separated them on the line. */
  lemma {:induction false} RedirectColumn(s: seq<byte>)
    requires Classify(s).Record?
    ensures |Split(s)| >= DELIMITERS + 1
    ensures Value(s, Classify(s).fields[REDIRECT]) == NullIfPlaceholder(Join(Split(s)[REDIRECT..|Split(s)| - 4]))
  {
    var sp := Spaces(s);
    var N := |sp|;
    var w := Window(sp);
    SplitIsPieces(s);
    RecordColumns(s, REDIRECT);
    JoinPieces(s, sp, REDIRECT, N - 3);
    WindowAt(sp, REDIRECT - 1);
    WindowAt(sp, REDIRECT);
    assert PieceStart(w, REDIRECT) == PieceStart(sp, REDIRECT);
    assert PieceEnd(w, REDIRECT, |s|) == PieceEnd(sp, N - 4, |s|);
    PieceBounds(s, w, REDIRECT);
    assert Split(s)[REDIRECT..|Split(s)| - 4] == Pieces(s, sp)[REDIRECT..N - 3];
  }

  /** What column k of a record holds, in terms of the line's space-separated tokens `t`:
      columns 0..5 are the first six tokens, columns 7..10 the last four, and column 6 (the
      redirect URL) is every token in between glued back together with their spaces. */
  function Column(t: seq<seq<byte>>, k: int): seq<byte>
    requires |t| >= DELIMITERS + 1 && 0 <= k <= DELIMITERS
  {
    if k < REDIRECT then t[k]
    else if k == REDIRECT then Join(t[REDIRECT..|t| - 4])
    else t[|t| - 11 + k]
  }

  /** Column k of a record holds `Column(Split(s), k)`, with the placeholder rule applied. */
  lemma {:induction false} ColumnAt(s: seq<byte>, k: int)
    requires Classify(s).Record?
    requires 0 <= k <= DELIMITERS
    ensures |Split(s)| >= DELIMITERS + 1
    ensures Value(s, Classify(s).fields[k]) == NullIfPlaceholder(Column(Split(s), k))
  {
    if k < REDIRECT {
      LeadingColumn(s, k);
    } else if k == REDIRECT {
      RedirectColumn(s);
    } else {
      TrailingColumn(s, k);
    }
  }

  /** The record layout: every column of a record holds its `Column` of the line's tokens,
      with the placeholder rule applied. */
  lemma {:induction false} RecordLayout(s: seq<byte>)
    requires Classify(s).Record?
    ensures |Split(s)| >= DELIMITERS + 1
    ensures forall k :: 0 <= k <= DELIMITERS ==>
              Value(s, Classify(s).fields[k]) == NullIfPlaceholder(Column(Split(s), k))
  {
    SplitIsPieces(s);
    forall k | 0 <= k <= DELIMITERS
      ensures Value(s, Classify(s).fields[k]) == NullIfPlaceholder(Column(Split(s), k))
    {
      ColumnAt(s, k);
    }
  }

  /** Only the redirect-URL column can hold a space; every other column is free of delimiters. */
  lemma {:induction false} FixedColumnsHaveNoSpace(s: seq<byte>, k: int)
    requires Classify(s).Record?
    requires 0 <= k <= DELIMITERS && k != REDIRECT
    requires Classify(s).fields[k].Range?
    ensures var f := Classify(s).fields[k];
            0 <= f.lo <= f.hi <= |s| && forall i :: f.lo <= i < f.hi ==> s[i] != SPACE
  {
    var sp := Spaces(s);
    var f := Classify(s).fields[k];
    var j := if k < REDIRECT then k else |sp| - DELIMITERS + k;
    RecordColumns(s, k);
    WindowPiece(sp, k, |s|);
    forall i | f.lo <= i < f.hi
      ensures s[i] != SPACE
    {
      NoSpaceInPiece(s, j, i);
    }
  }

  /** A line of exactly eleven tokens yields each token, placeholder rule applied, in its column. */
  lemma {:induction false} ElevenTokens(s: seq<byte>)
    requires Classify(s).Record?
    requires |Split(s)| == DELIMITERS + 1
    ensures forall k :: 0 <= k <= DELIMITERS ==> Value(s, Classify(s).fields[k]) == NullIfPlaceholder(Split(s)[k])
  {
    forall k | 0 <= k <= DELIMITERS
      ensures Value(s, Classify(s).fields[k]) == NullIfPlaceholder(Split(s)[k])
    {
      ColumnAt(s, k);
      ColumnOfEleven(Split(s), k);
    }
  }

  /** With exactly eleven tokens the redirect URL is a single token, so column k is token k. */
  lemma {:induction false} ColumnOfEleven(t: seq<seq<byte>>, k: int)
    requires |t| == DELIMITERS + 1 && 0 <= k <= DELIMITERS
    ensures Column(t, k) == t[k]
  {
    if k == REDIRECT {
      assert t[REDIRECT..|t| - 4] == [t[REDIRECT]];
    }
  }

  /** Only the first `length` bytes of the buffer matter. */
  lemma {:induction false} SlackIgnored(l: seq<byte>, length: int, slack: seq<byte>)
    requires 0 <= length <= |l|
    ensures Tokenize(l + slack, length) == Tokenize(l, length)
  {
    if length > 0 {
      assert (l + slack)[length - 1] == l[length - 1];
    }
    var end := EffectiveEnd(l, length);
    assert EffectiveEnd(l + slack, length) == end;
    assert (l + slack)[..end] == l[..end];
  }

  /** A trailing carriage return is dropped: a line tokenizes the same with or without it. */
  lemma {:induction false} TrailingCRIgnored(s: seq<byte>)
    requires s == [] || s[|s| - 1] != CR
    ensures Tokenize(s + [CR], |s| + 1) == Tokenize(s, |s|)
  {
    assert (s + [CR])[..|s|] == s == s[..|s|];
  }

  /** Only one carriage return is dropped: of two, the first stays in the line. */
  lemma {:induction false} OnlyOneCRDropped(s: seq<byte>)
    ensures EffectiveEnd(s + [CR, CR], |s| + 2) == |s| + 1
    ensures Tokenize(s + [CR, CR], |s| + 2) == Classify(s + [CR])
  {
    assert (s + [CR, CR])[|s| + 1] == CR;
    assert EffectiveEnd(s + [CR, CR], |s| + 2) == |s| + 1;
    assert (s + [CR, CR])[..|s| + 1] == s + [CR];
  }
}
