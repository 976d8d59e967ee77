/** The movie type enumeration and its custom validator. */
module DbMovieValidator {
  import opened Values

  /** The nine movie types. */
  datatype MovieType = ACTION | SPORT | ADVENTURE | ROMANTIC | COMEDY | DOCUMENTARY | HISTORIC | CARTOON | THRILLER

  function TypeName(t: MovieType): string
  {
    match t
    case ACTION => "ACTION"
    case SPORT => "SPORT"
    case ADVENTURE => "ADVENTURE"
    case ROMANTIC => "ROMANTIC"
    case COMEDY => "COMEDY"
    case DOCUMENTARY => "DOCUMENTARY"
    case HISTORIC => "HISTORIC"
    case CARTOON => "CARTOON"
    case THRILLER => "THRILLER"
  }

  /** `TYPES`. */
  const TYPES: seq<string> := ["ACTION", "SPORT", "ADVENTURE", "ROMANTIC", "COMEDY", "DOCUMENTARY", "HISTORIC", "CARTOON", "THRILLER"]

  /** `TYPES` lists each type exactly once and nothing else. */
  lemma TypesAreTheEnumeration()
    ensures |TYPES| == 9
    ensures forall s :: s in TYPES <==> exists t :: TypeName(t) == s
  {
    forall s | s in TYPES ensures exists t :: TypeName(t) == s {
      if s == "ACTION" { assert TypeName(ACTION) == s; }
      else if s == "SPORT" { assert TypeName(SPORT) == s; }
      else if s == "ADVENTURE" { assert TypeName(ADVENTURE) == s; }
      else if s == "ROMANTIC" { assert TypeName(ROMANTIC) == s; }
      else if s == "COMEDY" { assert TypeName(COMEDY) == s; }
      else if s == "DOCUMENTARY" { assert TypeName(DOCUMENTARY) == s; }
      else if s == "HISTORIC" { assert TypeName(HISTORIC) == s; }
      else if s == "CARTOON" { assert TypeName(CARTOON) == s; }
      else { assert TypeName(THRILLER) == s; }
    }
  }

  /** `TYPES.toString()`, as the refusal message shows it. */
  const TypesText := "ACTION,SPORT,ADVENTURE,ROMANTIC,COMEDY,DOCUMENTARY,HISTORIC,CARTOON,THRILLER"

  /** `isTypeValid(type)`: passes iff the value is exactly one of the nine type strings. */
  function IsTypeValid(movieType: Option<string>): (v: Verdict)
    ensures v.Accepted? <==> exists t :: Some(TypeName(t)) == movieType
  {
    TypesAreTheEnumeration();
    if movieType.Some? && movieType.value in TYPES then Accepted
    else Rejected(Show(movieType) + " is an invalid type. Remember that the only available types are " + TypesText + ".")
  }

  /** The column default "movie", a missing value and another letter case are all refused. */
  lemma TypeMatchIsExact()
    ensures IsTypeValid(Some("movie")).Rejected?
    ensures IsTypeValid(None).Rejected?
    ensures IsTypeValid(Some("action")).Rejected?
    ensures IsTypeValid(Some("ACTION")).Accepted?
  {
    assert Some(TypeName(ACTION)) == Some("ACTION");
  }
}
