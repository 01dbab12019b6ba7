/**
 * The content-delivery client on small concrete catalogues.
 */
module ContentDeliveryExamples {
  import opened Wrappers
  import opened ContentDelivery

  const En := Language("en", true)
  const Fr := Language("fr", false)

  /** With `en` as default and `fr` besides: the empty code and an unknown
      code fall back to `en`, `fr` finds `fr`. */
  lemma LanguageOrDefaultOnTwoLanguages()
    ensures LanguageOrDefault([En, Fr], "") == Ok(En)
    ensures LanguageOrDefault([En, Fr], "fr") == Ok(Fr)
    ensures LanguageOrDefault([En, Fr], "de") == Ok(En)
  {
    assert [En, Fr][0] == En && [En, Fr][1] == Fr;
    assert MatchesCode("fr", Fr) && !MatchesCode("fr", En);
  }

  /** A catalogue without a default language makes `defaultLanguage` throw
      and `languageOrDefault` throw for an unknown code. */
  lemma NoDefaultIsFatal()
    ensures DefaultLanguage([Fr]) == Thrown(NoDefaultLanguage)
    ensures LanguageOrDefault([Fr], "de") == Thrown(NoDefaultLanguage)
  {
  }

  /** Categories 1 (`team`) and 2 (`news`): `team` finds 1, `missing` nothing. */
  lemma CategoryLookupBySlug()
    ensures var team := Category(1, map["en" := Some(Translation("team", "Team"))]);
            var news := Category(2, map["en" := Some(Translation("news", "News"))]);
            && CategoryBySlug([team, news], "team") == Some(team)
            && CategoryBySlug([team, news], "missing") == None
  {
    var team := Category(1, map["en" := Some(Translation("team", "Team"))]);
    var news := Category(2, map["en" := Some(Translation("news", "News"))]);
    assert "en" in team.i18n && team.i18n["en"].value.slug == "team";
    assert HasSlug(team, "team");
    assert !HasSlug(news, "missing") && !HasSlug(team, "missing");
  }

  /** With pinning, stories A (unpinned, t2), B (pinned, t1) and C (pinned,
      t3), t1 < t2 < t3, are asked for in the order C, B, A. */
  lemma PinnedStoriesComeFirst(t1: int, t2: int, t3: int)
    requires t1 < t2 < t3
    ensures var a := Story("A", "a", "n", "en", {}, Published, Public, false, t2);
            var b := Story("B", "b", "n", "en", {}, Published, Public, true, t1);
            var c := Story("C", "c", "n", "en", {}, Published, Public, true, t3);
            var order := Chronologically(Desc, true);
            Precedes(order, c, b) && Precedes(order, b, a) && Precedes(order, c, a)
  {
  }

  /** The uuid fetch turns 404 into `null` and lets 500 through. */
  lemma StoryByUuidStatuses(c: Client, uuid: string, search: StorySearch -> Response<seq<Story>>)
    requires uuid != ""
    ensures GetStory(c, ByUuid(uuid), _ => Thrown(ApiError(404)), search) == Ok(None)
    ensures GetStory(c, ByUuid(uuid), _ => Thrown(ApiError(500)), search) == Thrown(ApiError(500))
  {
  }
}
