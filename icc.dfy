/** The colour profiles bundled with the program and their lookup by description. */
module Icc {
  import opened Wrappers
  import opened Text

  /** The three ICC files compiled into the program. */
  datatype Profile = ClayRgb | DisplayP3 | SrgbV4

  const PROFILE_NAME_TO_ICC: seq<(string, Profile)> :=
    [("adobe rgb", ClayRgb), ("display p3", DisplayP3), ("srgb", SrgbV4)]

  predicate IsFirstMatch(lowered: string, table: seq<(string, Profile)>, i: int)
  {
    0 <= i < |table| && Contains(lowered, table[i].0) && forall j :: 0 <= j < i ==> !Contains(lowered, table[j].0)
  }

  /** The profile of the first table entry whose name occurs in `lowered`. */
  function FirstMatch(lowered: string, table: seq<(string, Profile)>): (r: Option<Profile>)
    ensures r.None? <==> forall i :: 0 <= i < |table| ==> !Contains(lowered, table[i].0)
    ensures r.Some? ==> exists i :: IsFirstMatch(lowered, table, i) && table[i].1 == r.value
    decreases |table|
  {
    if |table| == 0 then None
    else if Contains(lowered, table[0].0) then Some(table[0].1)
    else
      var r := FirstMatch(lowered, table[1..]);
      assert forall i :: 1 <= i < |table| ==> table[i] == table[1..][i - 1];
      if r.Some? then
        ghost var i :| IsFirstMatch(lowered, table[1..], i) && table[1..][i].1 == r.value;
        assert IsFirstMatch(lowered, table, i + 1);
        r
      else
        r
  }

  /** `profile_desc_to_icc`: lookup by the lowercased profile description. */
  function ProfileDescToIcc(desc: string): (r: Option<Profile>)
    ensures r.Some? <==>
      Contains(Lower(desc), "adobe rgb") || Contains(Lower(desc), "display p3") || Contains(Lower(desc), "srgb")
  {
    var t := PROFILE_NAME_TO_ICC;
    assert t[0].0 == "adobe rgb" && t[1].0 == "display p3" && t[2].0 == "srgb";
    FirstMatch(Lower(desc), t)
  }

  /** The lookup ignores the description's letter case. */
  lemma ProfileDescCaseInsensitive(desc: string)
    ensures ProfileDescToIcc(Lower(desc)) == ProfileDescToIcc(desc)
  {
    LowerIdempotent(desc);
  }

  /** The table is searched in order: "adobe rgb", then "display p3", then "srgb". */
  lemma ProfileDescOrder(desc: string)
    ensures Contains(Lower(desc), "adobe rgb") ==> ProfileDescToIcc(desc) == Some(ClayRgb)
    ensures !Contains(Lower(desc), "adobe rgb") && Contains(Lower(desc), "display p3")
      ==> ProfileDescToIcc(desc) == Some(DisplayP3)
    ensures !Contains(Lower(desc), "adobe rgb") && !Contains(Lower(desc), "display p3") && Contains(Lower(desc), "srgb")
      ==> ProfileDescToIcc(desc) == Some(SrgbV4)
    ensures !Contains(Lower(desc), "adobe rgb") && !Contains(Lower(desc), "display p3") && !Contains(Lower(desc), "srgb")
      ==> ProfileDescToIcc(desc) == None
  {
    var t := PROFILE_NAME_TO_ICC;
    assert t[1..] == [("display p3", DisplayP3), ("srgb", SrgbV4)];
    assert t[1..][1..] == [("srgb", SrgbV4)];
    assert t[1..][1..][1..] == [];
  }

  /** Any casing of the usual sRGB description selects the sRGB profile. */
  lemma SrgbDescription(desc: string)
    requires Lower(desc) == "srgb iec61966-2.1"
    ensures ProfileDescToIcc(desc) == Some(SrgbV4)
  {
    var l := Lower(desc);
    NotContainsWithout(l, "adobe rgb");
    NotContainsWithout(l, "display p3");
    assert StartsWith(l, "srgb");
    ProfileDescOrder(desc);
  }
}
