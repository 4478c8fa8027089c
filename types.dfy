/**
 * The value types of the NFT container: fixed-width integers, the weather
 * reading, content hashes, tokens and their metadata, interface ids, the
 * initialisation arguments and the error taxonomy with its conversion from
 * a failed integer narrowing.
 */
module Types {
  import opened Wrappers

  // ---------------------------------------------------------------------
  // Rust's fixed-width integers, each a bounded subrange of `int`.
  // ---------------------------------------------------------------------

  const U8_LIMIT: int := 0x100
  const U16_LIMIT: int := 0x1_0000
  const U32_LIMIT: int := 0x1_0000_0000
  const U64_LIMIT: int := 0x1_0000_0000_0000_0000
  const U128_LIMIT: int := 0x1_0000_0000_0000_0000_0000_0000_0000_0000
  /** `u128::MAX` */
  const U128_MAX: int := U128_LIMIT - 1

  newtype U8 = x: int | 0 <= x < 0x100
  newtype U16 = x: int | 0 <= x < 0x1_0000
  newtype U32 = x: int | 0 <= x < 0x1_0000_0000
  newtype U64 = x: int | 0 <= x < 0x1_0000_0000_0000_0000
  newtype U128 = x: int | 0 <= x < 0x1_0000_0000_0000_0000_0000_0000_0000_0000
  newtype I32 = x: int | -0x8000_0000 <= x < 0x8000_0000

  // ---------------------------------------------------------------------
  // Entities
  // ---------------------------------------------------------------------

  /** A reading from the external weather oracle, stored verbatim. */
  datatype WeatherResult = WeatherResult(temperature: I32, pressure: I32, humidity: I32, windSpeed: I32)

  /** A content hash; its value is an uninterpreted string. */
  datatype Hash = Hash(hashValue: string)

  /**
   * An Internet Computer identity. It comes from outside this component;
   * here it is only its raw bytes, compared for equality.
   */
  datatype Principal = Principal(bytes: seq<U8>)

  datatype MetadataPurpose = Preview | Rendered

  /** One metadata value: exactly one content encoding is active. */
  datatype MetadataVal =
    | TextContent(text: string)
    | BlobContent(blob: seq<U8>)
    | NatContent(nat128: U128)
    | Nat8Content(nat8: U8)
    | Nat16Content(nat16: U16)
    | Nat32Content(nat32: U32)
    | Nat64Content(nat64: U64)
    | CustomContent(custom: string)

  /** One facet of a token's descriptive content. */
  datatype MetadataPart = MetadataPart(
    purpose: MetadataPurpose,
    keyValData: map<string, MetadataVal>,
    data: seq<U8>,
    customData: Option<MetadataVal>)

  /** A token's metadata: an ordered sequence of parts. */
  type MetadataDesc = seq<MetadataPart>

  /** A token: its owner, its 64-bit id, its metadata and its raw content. */
  datatype Nft = Nft(owner: Principal, id: U64, metadata: MetadataDesc, content: seq<U8>)

  datatype InterfaceId = Approval | TransactionHistory | Mint | Burn | TransferNotification

  /** The code's single-variant `Unauthorized` error, renamed so as not to clash with `Error`'s. */
  datatype ConstrainedError = ConstrainedUnauthorized

  /** The arguments the registry is installed with. */
  datatype InitArgs = InitArgs(logo: WeatherResult, name: string, symbol: string)

  /** The errors the registry reports to its callers. */
  datatype Error = Unauthorized | InvalidTokenId | ZeroAddress | Other

  /** The standard library's error for an integer conversion that does not fit; it carries nothing. */
  datatype TryFromIntError = TryFromIntError

  // ---------------------------------------------------------------------
  // Operations
  // ---------------------------------------------------------------------

  /**
   * The derived `PartialEq` on purposes: two purposes are equal exactly
   * when they are the same variant, so Preview and Rendered are told apart.
   */
  function PurposeEq(a: MetadataPurpose, b: MetadataPurpose): (r: bool)
    ensures r <==> a == b
  {
    match (a, b)
    case (Preview, Preview) => true
    case (Rendered, Rendered) => true
    case (Preview, Rendered) => false
    case (Rendered, Preview) => false
  }

  /** Every fixed-width metadata value lies within its width. */
  lemma MetadataValInWidth(v: MetadataVal)
    ensures v.Nat8Content? ==> 0 <= v.nat8 as int < U8_LIMIT
    ensures v.Nat16Content? ==> 0 <= v.nat16 as int < U16_LIMIT
    ensures v.Nat32Content? ==> 0 <= v.nat32 as int < U32_LIMIT
    ensures v.Nat64Content? ==> 0 <= v.nat64 as int < U64_LIMIT
    ensures v.NatContent? ==> 0 <= v.nat128 as int < U128_LIMIT
  {
  }

  /** `From<TryFromIntError> for Error`: every conversion failure is an invalid token id. */
  function ErrorFrom(e: TryFromIntError): (r: Error)
    ensures r.InvalidTokenId?
    ensures r != Unauthorized && r != ZeroAddress && r != Other
  {
    InvalidTokenId
  }

  /**
   * What the `?` operator does to a conversion result inside a function
   * returning `Result<T, Error>`: a success passes through unchanged, a
   * failure is converted with `ErrorFrom`.
   */
  function ConvertErr<T>(r: Result<T, TryFromIntError>): (q: Result<T, Error>)
    ensures q.Ok? <==> r.Ok?
    ensures r.Ok? ==> q.value == r.value
    ensures q.Err? ==> q.error == InvalidTokenId
  {
    match r
    case Ok(v) => Ok(v)
    case Err(e) => Err(ErrorFrom(e))
  }

  /**
   * `u64::try_from(n)` for an integer `n` of any wider or signed type: the
   * narrowing into a 64-bit token id succeeds exactly when `n` fits.
   */
  function TryIntoTokenId(n: int): (r: Result<U64, TryFromIntError>)
    ensures r.Ok? <==> 0 <= n < U64_LIMIT
    ensures r.Ok? ==> r.value as int == n
  {
    if 0 <= n < U64_LIMIT then Ok(n as U64) else Err(TryFromIntError)
  }

  /**
   * Converting an integer into a token id with `?` yields the id when it
   * fits and `InvalidTokenId` otherwise, never another error.
   */
  lemma TokenIdConversion(n: int)
    ensures 0 <= n < U64_LIMIT ==> ConvertErr(TryIntoTokenId(n)) == Ok(n as U64)
    ensures !(0 <= n < U64_LIMIT) ==> ConvertErr(TryIntoTokenId(n)) == Err(InvalidTokenId)
  {
  }

  /** Widening a token id and converting it back gives the same id. */
  lemma TokenIdRoundTrip(id: U64)
    ensures ConvertErr(TryIntoTokenId(id as int)) == Ok(id)
  {
    TokenIdConversion(id as int);
  }
}
