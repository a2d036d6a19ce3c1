/** The clap value parser for the `--spirv-metadata` option: a total mapping
    from the option's text to the level of metadata that the SPIR-V binary
    carries. Exactly three spellings are accepted; all others are rejected
    with clap's `InvalidValue` error kind. */
module Metadata {
  import Wrappers

  /** The metadata levels of the SPIR-V builder. */
  datatype SpirvMetadata = None | NameVariables | Full

  /** The error kinds the parser can produce (clap's `ErrorKind`). */
  datatype ParseError = InvalidValue

  /** The accepted command-line spelling of each metadata level. */
  function Spelling(m: SpirvMetadata): string
  {
    match m
    case None => "none"
    case NameVariables => "name-variables"
    case Full => "full"
  }

  /** The spelling the option defaults to when it is not given. */
  const DefaultSpelling: string := "none"

  /** Parses the value of `--spirv-metadata`. The comparison is exact and
      case-sensitive: no trimming, no prefix matching. */
  function ParseSpirvMetadata(s: string): (r: Wrappers.Result<SpirvMetadata, ParseError>)
    ensures r.Success? <==> s == "none" || s == "name-variables" || s == "full"
    ensures r.Success? ==> Spelling(r.value) == s
    ensures r.Failure? ==> r.error == InvalidValue
  {
    if s == "none" then Wrappers.Success(None)
    else if s == "name-variables" then Wrappers.Success(NameVariables)
    else if s == "full" then Wrappers.Success(Full)
    else Wrappers.Failure(InvalidValue)
  }

  /** Every metadata level is recovered from its own spelling. */
  lemma SpellingRoundTrip(m: SpirvMetadata)
    ensures ParseSpirvMetadata(Spelling(m)) == Wrappers.Success(m)
  {
  }

  /** A string is accepted exactly when it is the spelling of some level, and
      then it is parsed to that level and to no other. */
  lemma ParseAcceptsExactlySpellings(s: string, m: SpirvMetadata)
    ensures ParseSpirvMetadata(s) == Wrappers.Success(m) <==> s == Spelling(m)
  {
  }

  /** Distinct levels have distinct spellings, so the parser cannot confuse
      them. */
  lemma SpellingInjective(m1: SpirvMetadata, m2: SpirvMetadata)
    ensures Spelling(m1) == Spelling(m2) ==> m1 == m2
  {
  }

  /** The default value of the option parses, to `None`. */
  lemma DefaultParsesToNone()
    ensures ParseSpirvMetadata(DefaultSpelling) == Wrappers.Success(None)
  {
  }
}
