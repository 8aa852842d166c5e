/** The byte reader/writer pair that pages use for their content region,
    kept abstract as a stream of typed tokens. The byte-level encodings
    (string length prefix, endianness, page-address layout) are not part of
    this model: writing a value appends one token, and reading a value
    consumes one token of the expected kind. */
module Binary {
  import opened Wrappers

  const UINT32_MAX: int := 0xFFFF_FFFF
  const INT64_MAX: int := 0x7FFF_FFFF_FFFF_FFFF

  /** .NET `uint`, `byte` and `long`. */
  type uint32 = x: int | 0 <= x <= 0xFFFF_FFFF
  type uint8 = x: int | 0 <= x <= 0xFF
  type int64 = x: int | -0x8000_0000_0000_0000 <= x <= 0x7FFF_FFFF_FFFF_FFFF

  /** Reference to a record inside a page: page id plus slot number. */
  datatype PageAddress = PageAddress(pageID: uint32, index: uint8)

  /** The "no reference" address. */
  const EMPTY_ADDRESS: PageAddress := PageAddress(UINT32_MAX, 0)

  /** One value as the writer emits it. */
  datatype Token =
    | Str(s: string)
    | U32(u: uint32)
    | I64(l: int64)
    | Bool(b: bool)
    | Addr(a: PageAddress)

  datatype Kind = KString | KUInt32 | KInt64 | KBool | KAddress

  function KindOf(t: Token): Kind {
    match t
    case Str(_) => KString
    case U32(_) => KUInt32
    case I64(_) => KInt64
    case Bool(_) => KBool
    case Addr(_) => KAddress
  }

  /** Why a read failed: the stream ran out, or held a value of another kind. */
  datatype ReadError = EndOfStream | Mismatch(expected: Kind, found: Kind)

  /** Consumes the next token, which must be of kind `k`. */
  function Next(ts: seq<Token>, k: Kind): (r: Result<(Token, seq<Token>), ReadError>)
    ensures r.Success? <==> |ts| > 0 && KindOf(ts[0]) == k
    ensures r.Success? ==> r.value.0 == ts[0] && r.value.1 == ts[1..]
  {
    if |ts| == 0 then Failure(EndOfStream)
    else if KindOf(ts[0]) != k then Failure(Mismatch(k, KindOf(ts[0])))
    else Success((ts[0], ts[1..]))
  }

  function ReadString(ts: seq<Token>): (r: Result<(string, seq<Token>), ReadError>)
    ensures r.Success? <==> |ts| > 0 && ts[0].Str?
    ensures r.Success? ==> ts[0] == Str(r.value.0) && r.value.1 == ts[1..]
  {
    var t :- Next(ts, KString);
    Success((t.0.s, t.1))
  }

  function ReadUInt32(ts: seq<Token>): (r: Result<(uint32, seq<Token>), ReadError>)
    ensures r.Success? <==> |ts| > 0 && ts[0].U32?
    ensures r.Success? ==> ts[0] == U32(r.value.0) && r.value.1 == ts[1..]
  {
    var t :- Next(ts, KUInt32);
    Success((t.0.u, t.1))
  }

  function ReadInt64(ts: seq<Token>): (r: Result<(int64, seq<Token>), ReadError>)
    ensures r.Success? <==> |ts| > 0 && ts[0].I64?
    ensures r.Success? ==> ts[0] == I64(r.value.0) && r.value.1 == ts[1..]
  {
    var t :- Next(ts, KInt64);
    Success((t.0.l, t.1))
  }

  function ReadBoolean(ts: seq<Token>): (r: Result<(bool, seq<Token>), ReadError>)
    ensures r.Success? <==> |ts| > 0 && ts[0].Bool?
    ensures r.Success? ==> ts[0] == Bool(r.value.0) && r.value.1 == ts[1..]
  {
    var t :- Next(ts, KBool);
    Success((t.0.b, t.1))
  }

  function ReadPageAddress(ts: seq<Token>): (r: Result<(PageAddress, seq<Token>), ReadError>)
    ensures r.Success? <==> |ts| > 0 && ts[0].Addr?
    ensures r.Success? ==> ts[0] == Addr(r.value.0) && r.value.1 == ts[1..]
  {
    var t :- Next(ts, KAddress);
    Success((t.0.a, t.1))
  }
}
