/** The Mechanic schema (`models/Mechanic.js`): the service provider's profile,
    one per user, with its skills enum, its defaults and its aggregates. */
module MechanicModel {
  import opened Wrappers
  import opened Response
  import opened Docs

  datatype Skill = Engine | Transmission | Electrical | Brake | Suspension | Tire | General

  function SkillName(k: Skill): string {
    match k
    case Engine => "engine"
    case Transmission => "transmission"
    case Electrical => "electrical"
    case Brake => "brake"
    case Suspension => "suspension"
    case Tire => "tire"
    case General => "general"
  }

  /** The skills enum read from its stored text. */
  function ParseSkill(s: string): (r: Option<Skill>)
    ensures forall k: Skill :: r == Some(k) <==> SkillName(k) == s
  {
    if s == "engine" then Some(Engine)
    else if s == "transmission" then Some(Transmission)
    else if s == "electrical" then Some(Electrical)
    else if s == "brake" then Some(Brake)
    else if s == "suspension" then Some(Suspension)
    else if s == "tire" then Some(Tire)
    else if s == "general" then Some(General)
    else None
  }

  /** The enum validator on every element of `skills`: the parsed list when each
      element is a skill name, otherwise the first element that is not. */
  function ParseSkills(names: seq<string>): (r: Option<seq<Skill>>)
    ensures r.Some? <==> forall i :: 0 <= i < |names| ==> ParseSkill(names[i]).Some?
    ensures r.Some? ==> |r.value| == |names| && forall i :: 0 <= i < |names| ==> SkillName(r.value[i]) == names[i]
  {
    if names == [] then Some([])
    else match (ParseSkill(names[0]), ParseSkills(names[1..]))
      case (Some(k), Some(ks)) => Some([k] + ks)
      case _ => None
  }

  /** The stored texts of a skill list: the inverse of `ParseSkills`. */
  function SkillNames(ks: seq<Skill>): (r: seq<string>)
    ensures |r| == |ks| && forall i :: 0 <= i < |ks| ==> r[i] == SkillName(ks[i])
  {
    if ks == [] then [] else [SkillName(ks[0])] + SkillNames(ks[1..])
  }

  lemma {:induction false} ParseSkillNames(ks: seq<Skill>)
    ensures ParseSkills(SkillNames(ks)) == Some(ks)
  {
    if ks != [] {
      var names := SkillNames(ks);
      ParseSkillNames(ks[1..]);
      assert names[1..] == SkillNames(ks[1..]);
      assert ParseSkill(names[0]) == Some(ks[0]);
      assert ParseSkills(names) == Some([ks[0]] + ks[1..]);
      assert [ks[0]] + ks[1..] == ks;
    }
  }

  /** A stored mechanic profile. `totalRating` is the mean review rating in
      tenths (4.3 stars is 43); money is in whole currency units. */
  datatype Mechanic = Mechanic(
    userId: Id,
    licenseNumber: string,
    licenseExpiry: int,
    skills: seq<Skill>,
    yearsOfExperience: int,
    shopName: Option<string>,
    shopAddress: Option<string>,
    isVerified: bool,
    verifiedAt: Option<int>,
    verifiedBy: Option<Id>,
    isAvailable: bool,
    totalRating: int,
    totalReviews: int,
    totalJobs: int,
    totalEarnings: int,
    serviceRadius: int,
    location: Option<GeoPoint>)

  const DefaultServiceRadius := 10

  /** What `Mechanic.create` stores, or the validator that rejects it. The
      handler has already checked that the licence fields and skills are given;
      `yearsOfExperience` is required by the schema but not by the handler. */
  function NewMechanic(userId: Id, licenseNumber: string, licenseExpiry: int, skills: seq<string>,
                       yearsOfExperience: Option<int>, shopName: Option<string>,
                       shopAddress: Option<string>): (r: Outcome<Mechanic>)
    ensures r.Done? <==> licenseNumber != "" && ParseSkills(skills).Some? && yearsOfExperience.Some?
    ensures r.Done? ==> var m := r.value;
      && m.userId == userId && m.licenseNumber == licenseNumber && m.licenseExpiry == licenseExpiry
      && SkillNames(m.skills) == skills && m.yearsOfExperience == yearsOfExperience.value
      && m.shopName == shopName && m.shopAddress == shopAddress
      && !m.isVerified && m.verifiedAt.None? && m.verifiedBy.None? && m.isAvailable
      && m.totalRating == 0 && m.totalReviews == 0 && m.totalJobs == 0 && m.totalEarnings == 0
      && m.serviceRadius == DefaultServiceRadius && m.location.None?
  {
    if licenseNumber == "" then Threw(Invalid("Mechanic", "licenseNumber", "Please provide license number"))
    else match ParseSkills(skills)
      case None => Threw(Invalid("Mechanic", "skills", "is not a valid enum value for path `skills`."))
      case Some(ks) =>
        if yearsOfExperience.None? then Threw(Invalid("Mechanic", "yearsOfExperience", "Path `yearsOfExperience` is required."))
        else
          assert SkillNames(ks) == skills;
          Done(Mechanic(userId, licenseNumber, licenseExpiry, ks, yearsOfExperience.value, shopName, shopAddress,
                        false, None, None, true, 0, 0, 0, 0, DefaultServiceRadius, None))
  }

  /** The rating aggregate is zero exactly when no review counts, and otherwise
      a mean of ratings between one and five stars. */
  predicate RatingConsistent(m: Mechanic) {
    && m.totalReviews >= 0
    && (m.totalReviews == 0 ==> m.totalRating == 0)
    && (m.totalReviews > 0 ==> 10 <= m.totalRating <= 50)
  }
}
