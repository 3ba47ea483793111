/** `ForceFunction`: a C enum seen from Swift as a raw `UInt32`. Only the
    three declared raw values have a label; any other value makes
    `description` a fatal error.
 */
module ForceFunctions {
  import opened Results
  import Lookup

  datatype ForceFunction = ForceFunction(rawValue: nat)

  /** The raw values the enum declares. */
  type Declared = f: ForceFunction | f.rawValue < 3 witness ForceFunction(0)

  const Force1: Declared := ForceFunction(0)
  const Force2: Declared := ForceFunction(1)
  const Force3: Declared := ForceFunction(2)

  /** `default`. */
  const Default: Declared := Force2

  /** `allCases`. */
  const AllCases: seq<Declared> := [Force1, Force2, Force3]

  /** `description`. */
  function Description(f: Declared): (s: string)
    ensures s == "force" + [(f.rawValue + '1' as int) as char]
  {
    match f.rawValue
    case 0 => "force1"
    case 1 => "force2"
    case 2 => "force3"
  }

  /** `init?(_ description:)`. */
  function FromDescription(s: string): (r: Option<Declared>)
    ensures r.Some? ==> Description(r.value) == s
    ensures r.None? <==> forall f: Declared :: Description(f) != s
  {
    var r := Lookup.FirstWhere(AllCases, Description, s);
    assert r.None? ==> forall f: Declared :: Description(f) != s by {
      if r.None? {
        forall f: Declared ensures Description(f) != s {
          assert AllCases[f.rawValue] == f;
        }
      }
    }
    r
  }

  /** Every declared case is listed once, at its raw value, and the labels
      differ, so each label finds its own case. */
  lemma DescriptionRoundTrip(f: Declared)
    ensures AllCases[f.rawValue] == f
    ensures FromDescription(Description(f)) == Some(f)
  {
    assert Lookup.DistinctDescriptions(AllCases, Description);
    Lookup.FirstWhereRoundTrip(AllCases, Description, f.rawValue);
  }
}
