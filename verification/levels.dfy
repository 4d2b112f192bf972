/**
  The syslog-style severity taxonomy of PostLog and its string codec.

  Encoding is total and injective over the nine variants; decoding is total over
  all strings, exact and case-sensitive, and falls back to `Info` on any string
  that is not one of the nine canonical lowercase tokens.
 */
module LogLevels {

  /** The nine severities, declared from most to least severe. */
  datatype LogLevel =
    | Emergency
    | Alert
    | Critical
    | Fatal
    | Error
    | Warning
    | Notice
    | Info
    | Debug

  /** Every severity, in declaration order (most severe first). */
  const AllLevels: seq<LogLevel> :=
    [Emergency, Alert, Critical, Fatal, Error, Warning, Notice, Info, Debug]

  /** The canonical token of each severity, listed in declaration order. */
  const CanonicalTokens: seq<string> :=
    ["emerg", "alert", "crit", "fatal", "error", "warn", "notice", "info", "debug"]

  /** The string the encoder yields for a value outside the enumeration. */
  const UnknownToken: string := "unknown"

  /** Position of a severity in the declaration order; smaller is more severe. */
  function Ordinal(l: LogLevel): (r: nat)
    ensures r < |AllLevels|
    ensures AllLevels[r] == l
  {
    match l
    case Emergency => 0
    case Alert => 1
    case Critical => 2
    case Fatal => 3
    case Error => 4
    case Warning => 5
    case Notice => 6
    case Info => 7
    case Debug => 8
  }

  /** `a` is strictly more severe than `b`. */
  predicate MoreSevere(a: LogLevel, b: LogLevel) {
    Ordinal(a) < Ordinal(b)
  }

  /** The encoder: the canonical lowercase token of a severity. */
  function ToToken(l: LogLevel): (r: string)
    ensures r == CanonicalTokens[Ordinal(l)]
    ensures r != UnknownToken
  {
    match l
    case Emergency => "emerg"
    case Alert => "alert"
    case Critical => "crit"
    case Fatal => "fatal"
    case Error => "error"
    case Warning => "warn"
    case Notice => "notice"
    case Info => "info"
    case Debug => "debug"
  }

  /** The decoder: exact, case-sensitive comparison against the nine tokens, in
      declaration order; anything else degrades to `Info`. */
  function FromToken(s: string): (r: LogLevel)
    ensures s in CanonicalTokens ==> ToToken(r) == s
    ensures s !in CanonicalTokens ==> r == Info
  {
    if s == "emerg" then Emergency
    else if s == "alert" then Alert
    else if s == "crit" then Critical
    else if s == "fatal" then Fatal
    else if s == "error" then Error
    else if s == "warn" then Warning
    else if s == "notice" then Notice
    else if s == "info" then Info
    else if s == "debug" then Debug
    else Info
  }

  /** The declaration order is exactly the nine variants, each once. */
  lemma AllLevelsEnumerate()
    ensures |AllLevels| == 9
    ensures forall l: LogLevel :: l in AllLevels
    ensures forall i, j :: 0 <= i < j < |AllLevels| ==> AllLevels[i] != AllLevels[j]
  {
    forall l: LogLevel ensures l in AllLevels {
      assert AllLevels[Ordinal(l)] == l;
    }
  }

  /** The nine canonical tokens are pairwise distinct. */
  lemma CanonicalTokensDistinct()
    ensures |CanonicalTokens| == |AllLevels|
    ensures forall i, j :: 0 <= i < j < |CanonicalTokens| ==> CanonicalTokens[i] != CanonicalTokens[j]
  {
  }

  /** Decoding undoes encoding for every severity. */
  lemma DecodeEncode(l: LogLevel)
    ensures FromToken(ToToken(l)) == l
  {
  }

  /** Encoding is injective. */
  lemma ToTokenInjective(a: LogLevel, b: LogLevel)
    ensures ToToken(a) == ToToken(b) <==> a == b
  {
    DecodeEncode(a);
    DecodeEncode(b);
  }

  /** Encoding after decoding returns the input exactly when the input is canonical;
      every other string is absorbed into `Info`. */
  lemma EncodeDecode(s: string)
    ensures ToToken(FromToken(s)) == s <==> s in CanonicalTokens
    ensures s !in CanonicalTokens ==> FromToken(s) == Info
  {
    if s !in CanonicalTokens {
      assert ToToken(Info) == CanonicalTokens[7];
    }
  }

  /** Decoding is case-sensitive: upper-case "INFO" and other case variants of the
      tokens are not recognised and fall back to `Info`. */
  lemma CaseVariantsFallBack()
    ensures FromToken("INFO") == Info
    ensures FromToken("Error") == Info
    ensures FromToken("EMERG") == Info
    ensures FromToken("Debug") == Info
  {
  }

  /** Severity order is a strict total order on the nine variants. */
  lemma MoreSevereIsStrictTotalOrder(a: LogLevel, b: LogLevel, c: LogLevel)
    ensures !MoreSevere(a, a)
    ensures MoreSevere(a, b) && MoreSevere(b, c) ==> MoreSevere(a, c)
    ensures a != b ==> MoreSevere(a, b) || MoreSevere(b, a)
  {
    if a != b {
      assert AllLevels[Ordinal(a)] != AllLevels[Ordinal(b)];
    }
  }

  /** The declaration order runs from Emergency down to Debug. */
  lemma DeclarationOrder()
    ensures forall i, j :: 0 <= i < j < |AllLevels| ==> MoreSevere(AllLevels[i], AllLevels[j])
  {
    forall i, j | 0 <= i < j < |AllLevels|
      ensures MoreSevere(AllLevels[i], AllLevels[j])
    {
      AllLevelsEnumerate();
      OrdinalOfPosition(i);
      OrdinalOfPosition(j);
    }
  }

  lemma OrdinalOfPosition(i: int)
    requires 0 <= i < |AllLevels|
    ensures Ordinal(AllLevels[i]) == i
  {
  }
}
