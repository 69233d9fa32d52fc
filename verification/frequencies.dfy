/** The change-frequency hint of an entry: a closed enumeration whose
    identifiers are the very words written inside `<changefreq>`. */
module Frequencies {
  import opened Options

  datatype ModificationFrequency = Always | Hourly | Daily | Weekly | Monthly | Yearly | Never

  /** Every variant, in declaration order. */
  const AllFrequencies: seq<ModificationFrequency> :=
    [Always, Hourly, Daily, Weekly, Monthly, Yearly, Never]

  predicate IsLowerWord(s: string) {
    |s| > 0 && forall i | 0 <= i < |s| :: 'a' <= s[i] <= 'z'
  }

  /** The enum constant's identifier, which is what its string form yields. */
  function Name(f: ModificationFrequency): (s: string)
    ensures IsLowerWord(s)
  {
    match f
    case Always => "always"
    case Hourly => "hourly"
    case Daily => "daily"
    case Weekly => "weekly"
    case Monthly => "monthly"
    case Yearly => "yearly"
    case Never => "never"
  }

  /** The enum's lookup by identifier; None where Java's valueOf throws. */
  function ValueOf(s: string): (r: Option<ModificationFrequency>)
    ensures r.Some? ==> Name(r.value) == s
    ensures r.None? ==> forall f :: Name(f) != s
  {
    if s == "always" then Some(Always)
    else if s == "hourly" then Some(Hourly)
    else if s == "daily" then Some(Daily)
    else if s == "weekly" then Some(Weekly)
    else if s == "monthly" then Some(Monthly)
    else if s == "yearly" then Some(Yearly)
    else if s == "never" then Some(Never)
    else None
  }

  lemma NameRoundTrip(f: ModificationFrequency)
    ensures ValueOf(Name(f)) == Some(f)
  {
  }

  lemma NameInjective(f: ModificationFrequency, g: ModificationFrequency)
    requires Name(f) == Name(g)
    ensures f == g
  {
    NameRoundTrip(f);
    NameRoundTrip(g);
  }

  /** The enumeration has exactly seven values with seven distinct names. */
  lemma ExactlySevenVariants()
    ensures |AllFrequencies| == 7
    ensures forall f :: f in AllFrequencies
    ensures forall i, j | 0 <= i < j < 7 :: Name(AllFrequencies[i]) != Name(AllFrequencies[j])
  {
    forall f ensures f in AllFrequencies {
      match f
      case Always => assert AllFrequencies[0] == f;
      case Hourly => assert AllFrequencies[1] == f;
      case Daily => assert AllFrequencies[2] == f;
      case Weekly => assert AllFrequencies[3] == f;
      case Monthly => assert AllFrequencies[4] == f;
      case Yearly => assert AllFrequencies[5] == f;
      case Never => assert AllFrequencies[6] == f;
    }
    forall i, j | 0 <= i < j < 7 ensures Name(AllFrequencies[i]) != Name(AllFrequencies[j]) {
      if Name(AllFrequencies[i]) == Name(AllFrequencies[j]) {
        NameInjective(AllFrequencies[i], AllFrequencies[j]);
      }
    }
  }
}
