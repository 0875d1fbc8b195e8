/** Bytes of a CDX line, the value of one column, and the loader's two `bytearray` helpers. */
module CdxFields {

  /** One byte of a line. The loader compares bytes only against ASCII characters,
      so the unsigned reading 0..255 behaves exactly like Java's signed `byte` here. */
  newtype byte = b: int | 0 <= b < 256

  const SPACE: byte := 32  // ' ', the column delimiter
  const CR: byte := 13     // '\r'
  const DASH: byte := 45   // '-', the "no value" placeholder

  datatype Option<T> = None | Some(value: T)

  /** One column of a record: Java `null`, or a `DataByteArray` holding the bytes
      [lo, hi) of the line buffer. The range is kept instead of a copy of the bytes. */
  datatype Field = Null | Range(lo: int, hi: int)

  /** What a column means: no value for an empty token and for the placeholder `-`,
      otherwise the token itself. */
  function NullIfPlaceholder(t: seq<byte>): Option<seq<byte>>
  {
    if t == [] || t == [DASH] then None else Some(t)
  }

  /** A field lies within the first `n` bytes of its line. */
  predicate Within(f: Field, n: int)
  {
    f.Range? ==> 0 <= f.lo <= f.hi <= n
  }

  /** The bytes a field stands for, read out of the line buffer `l`. */
  function Value(l: seq<byte>, f: Field): (v: Option<seq<byte>>)
    requires Within(f, |l|)
    ensures v.None? <==> f.Null?
    ensures f.Range? ==> v == Some(l[f.lo..f.hi])
  {
    match f
    case Null => None
    case Range(lo, hi) => Some(l[lo..hi])
  }

  /** `bytearray(byte[] bb, int s, int e)`: null when the range [s, e) is empty or is the
      single byte `-`, otherwise the range itself. */
  function ByteArray(bb: seq<byte>, s: int, e: int): (f: Field)
    requires 0 <= s <= e <= |bb|
    ensures f.Range? ==> f.lo == s && f.hi == e
    ensures Within(f, |bb|)
  {
    if e == s || (e == s + 1 && bb[s] == DASH) then Null else Range(s, e)
  }

  /** The field `bytearray` builds holds exactly the placeholder-filtered bytes of its range. */
  lemma {:induction false} ByteArrayValue(bb: seq<byte>, s: int, e: int)
    requires 0 <= s <= e <= |bb|
    ensures ByteArray(bb, s, e).Null? <==> bb[s..e] == [] || bb[s..e] == [DASH]
    ensures Value(bb, ByteArray(bb, s, e)) == NullIfPlaceholder(bb[s..e])
  {
    assert |bb[s..e]| == e - s;
  }

  /** Only the bytes of its own range decide a field: a longer buffer gives the same field. */
  lemma {:induction false} ByteArrayPrefix(bb: seq<byte>, n: int, s: int, e: int)
    requires 0 <= s <= e <= n <= |bb|
    ensures ByteArray(bb, s, e) == ByteArray(bb[..n], s, e)
  {
    if e == s + 1 {
      assert bb[..n][s] == bb[s];
    }
  }

  /** `bytearray(String s)`: null exactly when the text is `-`; unlike the byte-range
      helper, an empty text is kept as a value. */
  function ByteArrayOfString(s: string): (r: Option<string>)
    ensures r.None? <==> s == "-"
    ensures r.Some? ==> r.value == s
  {
    if s == "-" then None else Some(s)
  }
}
