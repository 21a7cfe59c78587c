/** The JSONB column adapter of database/jsonb.go: raw JSON bytes with the convention
    that empty content stands for the empty object `{}`. A Go string is its sequence of
    bytes, so the text a JSONB value prints as is its content. */
module Jsonb {
  import opened Wrappers

  type Bytes = seq<bv8>

  /** `emptyJSON`: the two bytes `{` and `}`. */
  const EmptyJson: Bytes := [0x7B, 0x7D]

  /** `IsEmptyJSON`: deep equality with `emptyJSON`, so true for exactly the bytes `{}`. */
  function IsEmptyJson(val: Bytes): (r: bool)
    ensures r <==> |val| == 2 && val[0] == 0x7B && val[1] == 0x7D
  {
    val == EmptyJson
  }

  /** `MarshalJSON`: empty content is encoded as `{}`, anything else as itself. */
  function MarshalJson(j: Bytes): (r: Bytes)
    ensures |r| > 0
    ensures |j| > 0 ==> r == j
  {
    if |j| == 0 then EmptyJson else j
  }

  /** `String`: the content as text. */
  function String(j: Bytes): (r: Bytes)
    ensures |r| == |j| && forall i :: 0 <= i < |j| ==> r[i] == j[i]
  {
    j
  }

  /** The dynamic type of the value handed to `Scan`: a string, a byte slice, nil, or
      anything else. */
  datatype Src = Str(s: Bytes) | ByteSlice(b: Bytes) | Nil | Other

  /** The content `Scan` leaves behind (`None` when it fails and leaves the content alone). */
  function ScanResult(src: Src): (r: Option<Bytes>)
    ensures r.None? <==> src.Other?
  {
    match src
    case Str(s) => Some(s)
    case ByteSlice(b) => Some(if |b| == 0 then EmptyJson else b)
    case Nil => Some([])
    case Other => None
  }

  /** A JSONB value behind a pointer; the methods with a pointer receiver update it. */
  class Json {
    var content: Bytes

    constructor (init: Bytes)
      ensures content == init
    {
      content := init;
    }

    /** `Scan`: a string's bytes and a non-empty byte slice are copied in, an empty byte slice
        becomes `{}`, nil leaves empty content (the `{}` stored first is overwritten by the
        copy of the empty source), and any other type is an error that changes nothing. */
    method Scan(src: Src) returns (err: bool)
      modifies this
      ensures err <==> src.Other?
      ensures err ==> content == old(content)
      ensures !err ==> Some(content) == ScanResult(src)
    {
      var source: Bytes := [];
      match src {
        case Str(s) =>
          source := s;
        case ByteSlice(b) =>
          if |b| == 0 {
            source := EmptyJson;
          } else {
            source := b;
          }
        case Nil =>
          content := EmptyJson;
        case Other =>
          return true;
      }
      assert content[0..0] + source == source;
      content := content[0..0] + source;
      return false;
    }

    /** The first step of `Unmarshal`: empty content is replaced by `{}`; the bytes returned
        are what is handed to the JSON decoder. */
    method Unmarshal() returns (input: Bytes)
      modifies this
      ensures content == MarshalJson(old(content))
      ensures input == content
    {
      if |content| == 0 {
        content := EmptyJson;
      }
      input := content;
    }
  }

  /** `UnmarshalJSON`: an error on a nil pointer, otherwise the content becomes a copy of `data`. */
  method UnmarshalJson(j: Json?, data: Bytes) returns (err: bool)
    modifies if j == null then {} else {j}
    ensures err <==> j == null
    ensures j != null ==> j.content == data
  {
    if j == null {
      return true;
    }
    assert j.content[0..0] + data == data;
    j.content := j.content[0..0] + data;
    return false;
  }

  // ----- properties -----

  /** Encoding is idempotent, and what it produces is `{}` exactly when the content is empty
      or already `{}`. */
  lemma MarshalIdempotent(j: Bytes)
    ensures MarshalJson(MarshalJson(j)) == MarshalJson(j)
    ensures IsEmptyJson(MarshalJson(j)) <==> |j| == 0 || IsEmptyJson(j)
  {
  }

  /** Scanning a value's text back in restores the value, and so does decoding its
      encoding into a non-nil pointer when the value is not empty. */
  lemma ScanStringRoundTrip(j: Bytes)
    ensures ScanResult(Str(String(j))) == Some(j)
    ensures |j| > 0 ==> ScanResult(ByteSlice(MarshalJson(j))) == Some(j)
  {
  }

  /** A NULL column leaves empty content, which `IsEmptyJSON` does not recognise but which
      still encodes as `{}`; an empty byte slice, by contrast, is stored as `{}` itself, and an
      empty string as empty content. */
  lemma ScanEmptySources()
    ensures ScanResult(Nil) == Some([]) && !IsEmptyJson([]) && MarshalJson([]) == EmptyJson
    ensures ScanResult(ByteSlice([])) == Some(EmptyJson) && IsEmptyJson(EmptyJson)
    ensures ScanResult(Str([])) == Some([])
  {
  }

  /** Whatever `Scan` stores encodes the same as what it was given, for strings and byte slices. */
  lemma ScanPreservesEncoding(src: Src)
    requires src.Str? || src.ByteSlice?
    ensures ScanResult(src).Some?
    ensures MarshalJson(ScanResult(src).value) == MarshalJson(if src.Str? then src.s else src.b)
  {
  }
}
