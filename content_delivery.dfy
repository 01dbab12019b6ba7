/**
 * The content-delivery client: a read-only query layer over the newsroom
 * catalogue.  The client holds only the parameters it was created with.
 * Each SDK call is a function parameter that maps the request record the
 * client builds to the SDK's response, so what is modelled is the request
 * the client sends and what it makes of the answer.
 */
module ContentDelivery {
  import opened Wrappers

  // ----- Catalogue entities -----

  /** A newsroom language: its locale code and whether it is the default one. */
  datatype Language = Language(localeCode: string, isDefault: bool)

  datatype Translation = Translation(slug: string, name: string)

  /** A category with its per-locale translations; a locale may map to an
      undefined translation. */
  datatype Category = Category(id: int, i18n: map<string, Option<Translation>>)

  datatype FormatVersion = Html | SlateJs | SlateJsV4 | SlateJsV5

  datatype StoryStatus = Draft | Scheduled | Embargo | Published

  datatype Visibility = Public | Private | Embargo | Confidential

  datatype Story = Story(uuid: string, slug: string, newsroomUuid: string, locale: string,
                         categoryIds: set<int>, status: StoryStatus, visibility: Visibility,
                         isPinned: bool, publishedAt: int)

  datatype GalleryStatus = PublicGallery | PrivateGallery

  datatype GalleryType = MediaGallery | ImageGallery | VideoGallery

  datatype Gallery = Gallery(uuid: string, status: GalleryStatus, isEmpty: bool, galleryType: GalleryType)

  /** Extra fields a story request asks the SDK to include. */
  datatype Include = ThumbnailImage | ExtendedStoryFields

  // ----- Errors -----

  /** What an operation throws: an SDK `ApiError` with its HTTP status, any
      other error, or the client's own missing-default-language error. */
  datatype Failure = ApiError(status: int) | OtherError(message: string) | NoDefaultLanguage

  datatype Response<+T> = Ok(value: T) | Thrown(failure: Failure)

  const NotFound: int := 404
  const Forbidden: int := 403
  const Gone: int := 410

  /** `isNotAvailableError`: the statuses after which the resource is treated
      as absent (404 Not Found, 410 Gone and 403 Forbidden of RFC 9110,
      sections 15.5.5, 15.5.11 and 15.5.4). */
  predicate IsNotAvailable(status: int): (b: bool)
    ensures b <==> status in {Forbidden, NotFound, Gone}
    ensures b ==> 400 <= status < 500
  {
    status == NotFound || status == Gone || status == Forbidden
  }

  /** The try/catch of `gallery` and of `story` by uuid: a not-available
      `ApiError` becomes `null`; every other error is rethrown unchanged. */
  function NullIfNotAvailable<T>(resp: Response<T>): (r: Response<Option<T>>)
    ensures resp.Ok? ==> r == Ok(Some(resp.value))
    ensures r == Ok(None) <==> resp.Thrown? && resp.failure.ApiError? && resp.failure.status in {403, 404, 410}
    ensures r.Thrown? <==> resp.Thrown? && !(resp.failure.ApiError? && resp.failure.status in {403, 404, 410})
    ensures r.Thrown? ==> resp == Thrown(r.failure)
  {
    match resp
    case Ok(v) => Ok(Some(v))
    case Thrown(f) => if f.ApiError? && IsNotAvailable(f.status) then Ok(None) else Thrown(f)
  }

  // ----- The client -----

  /** The parameters fixed when the client is created. */
  datatype Client = Client(newsroomUuid: string, themeId: Option<string>, formats: seq<FormatVersion>, pinning: bool)

  /** The optional settings of `createContentDeliveryClient`. */
  datatype Params = Params(formats: Option<seq<FormatVersion>>, pinning: Option<bool>)

  /** `createContentDeliveryClient`: formats default to SLATEJS_V4 only and
      pinning defaults to off. */
  function CreateClient(newsroomUuid: string, themeId: Option<string>, params: Params): (c: Client)
    ensures c.newsroomUuid == newsroomUuid && c.themeId == themeId
    ensures params.formats.None? ==> c.formats == [SlateJsV4]
    ensures params.formats.Some? ==> c.formats == params.formats.value
    ensures c.pinning <==> params.pinning == Some(true)
  {
    Client(newsroomUuid, themeId,
           if params.formats.Some? then params.formats.value else [SlateJsV4],
           if params.pinning.Some? then params.pinning.value else false)
  }

  // ----- Lookups over fetched lists -----

  /** Index of the first element of `s` that satisfies `p`: the scan of
      `Array.prototype.find`. */
  function FindFirst<T>(s: seq<T>, p: T -> bool): (r: Option<nat>)
    ensures r.Some? ==> r.value < |s| && p(s[r.value]) && forall j :: 0 <= j < r.value ==> !p(s[j])
    ensures r.None? ==> forall j :: 0 <= j < |s| ==> !p(s[j])
  {
    if |s| == 0 then None
    else if p(s[0]) then Some(0)
    else match FindFirst(s[1..], p)
      case None => None
      case Some(i) => Some(i + 1)
  }

  /** `i` is the position of the first default language. */
  ghost predicate FirstDefaultAt(langs: seq<Language>, i: int)
  {
    0 <= i < |langs| && langs[i].isDefault && forall j :: 0 <= j < i ==> !langs[j].isDefault
  }

  /** `defaultLanguage`: the first language flagged as default; throws when
      there is none. */
  function DefaultLanguage(langs: seq<Language>): (r: Response<Language>)
    ensures r.Thrown? <==> forall j :: 0 <= j < |langs| ==> !langs[j].isDefault
    ensures r.Thrown? ==> r.failure == NoDefaultLanguage
    ensures r.Ok? ==> r.value.isDefault && exists i :: FirstDefaultAt(langs, i) && langs[i] == r.value
  {
    match FindFirst(langs, (l: Language) => l.isDefault)
    case None => Thrown(NoDefaultLanguage)
    case Some(i) => assert FirstDefaultAt(langs, i); Ok(langs[i])
  }

  /** The test of `language(code)`: an empty code selects the default
      language; any code selects the language with that locale code. */
  predicate MatchesCode(code: string, l: Language)
  {
    (code == "" && l.isDefault) || l.localeCode == code
  }

  /** `i` is the position of the first language matching `code`. */
  ghost predicate FirstMatchAt(langs: seq<Language>, code: string, i: int)
  {
    0 <= i < |langs| && MatchesCode(code, langs[i]) && forall j :: 0 <= j < i ==> !MatchesCode(code, langs[j])
  }

  /** `language(code)`: the first matching language, or undefined. */
  function LanguageFor(langs: seq<Language>, code: string): (r: Option<Language>)
    ensures r.None? <==> forall j :: 0 <= j < |langs| ==> !MatchesCode(code, langs[j])
    ensures r.Some? ==> exists i :: FirstMatchAt(langs, code, i) && langs[i] == r.value
  {
    match FindFirst(langs, (l: Language) => MatchesCode(code, l))
    case None => None
    case Some(i) => assert FirstMatchAt(langs, code, i); Some(langs[i])
  }

  /** `languageOrDefault(code)`: the matching language, else the default
      one; it throws only when nothing matches and there is no default. */
  function LanguageOrDefault(langs: seq<Language>, code: string): (r: Response<Language>)
    ensures r.Thrown? <==> forall j :: 0 <= j < |langs| ==> !MatchesCode(code, langs[j]) && !langs[j].isDefault
    ensures r.Thrown? ==> r.failure == NoDefaultLanguage
    ensures r.Ok? ==> r.value in langs && (MatchesCode(code, r.value) || r.value.isDefault)
    ensures (exists j :: 0 <= j < |langs| && MatchesCode(code, langs[j])) ==>
              r.Ok? && exists i :: FirstMatchAt(langs, code, i) && langs[i] == r.value
    ensures (forall j :: 0 <= j < |langs| ==> !MatchesCode(code, langs[j])) && r.Ok? ==>
              exists i :: FirstDefaultAt(langs, i) && langs[i] == r.value
  {
    match LanguageFor(langs, code)
    case Some(l) => Ok(l)
    case None => DefaultLanguage(langs)
  }

  /** Some defined translation of `c` has slug `slug`. */
  predicate HasSlug(c: Category, slug: string)
  {
    exists locale :: locale in c.i18n && c.i18n[locale].Some? && c.i18n[locale].value.slug == slug
  }

  /** `category(slug)`: the first category in list order having a defined
      translation with that slug, or undefined. */
  function CategoryBySlug(categories: seq<Category>, slug: string): (r: Option<Category>)
    ensures r.None? <==> forall j :: 0 <= j < |categories| ==> !HasSlug(categories[j], slug)
    ensures r.Some? ==> exists i :: 0 <= i < |categories| && categories[i] == r.value && HasSlug(r.value, slug)
                                    && forall j :: 0 <= j < i ==> !HasSlug(categories[j], slug)
  {
    match FindFirst(categories, (c: Category) => HasSlug(c, slug))
    case None => None
    case Some(i) => Some(categories[i])
  }

  /** A category is found by the slug of any of its defined translations,
      unless an earlier category has a translation with the same slug. */
  lemma CategoryFoundByAnyTranslation(categories: seq<Category>, i: int, locale: string)
    requires 0 <= i < |categories| && locale in categories[i].i18n && categories[i].i18n[locale].Some?
    requires forall j :: 0 <= j < i ==> !HasSlug(categories[j], categories[i].i18n[locale].value.slug)
    ensures CategoryBySlug(categories, categories[i].i18n[locale].value.slug) == Some(categories[i])
  {
  }

  // ----- Sort order -----

  datatype Direction = Asc | Desc

  datatype SortKey = IsPinned | PublishedAt

  /** One term of a sort specification, as `SortOrder.asc`/`SortOrder.desc` make it. */
  datatype SortTerm = SortTerm(key: SortKey, direction: Direction)

  /** A composite sort specification; `SortOrder.combine` concatenates terms. */
  type SortOrder = seq<SortTerm>

  /** `chronologically(direction, pinning)`: `published_at` in the given
      direction (descending unless ascending is asked for), behind a
      descending `is_pinned` term when pinning is on. */
  function Chronologically(direction: Direction, pinning: bool): (order: SortOrder)
    ensures |order| > 0 && order[|order| - 1] == SortTerm(PublishedAt, direction)
    ensures pinning <==> |order| == 2
    ensures pinning ==> order[0] == SortTerm(IsPinned, Desc)
    ensures !pinning ==> order == [SortTerm(PublishedAt, direction)]
  {
    var chronological := if direction == Asc then [SortTerm(PublishedAt, Asc)] else [SortTerm(PublishedAt, Desc)];
    var order := if pinning then [SortTerm(IsPinned, Desc)] + chronological else chronological;
    assert direction != Asc ==> direction == Desc;
    assert order[|order| - 1] == chronological[0];
    order
  }

  /** The value a story has for a sort key; pinned ranks above unpinned. */
  function KeyValue(s: Story, key: SortKey): int
  {
    match key
    case IsPinned => if s.isPinned then 1 else 0
    case PublishedAt => s.publishedAt
  }

  /** What a sort specification asks for: `a` comes strictly before `b`
      when the first key on which they differ orders them so. */
  predicate Precedes(order: SortOrder, a: Story, b: Story)
  {
    if order == [] then false
    else
      var va, vb := KeyValue(a, order[0].key), KeyValue(b, order[0].key);
      if va == vb then Precedes(order[1..], a, b)
      else if order[0].direction == Asc then va < vb else va > vb
  }

  /** The chronological ordering in words: with pinning, pinned stories
      come before all others; within a group (or without pinning) stories
      follow `published_at` in the configured direction. */
  predicate ChronologicalSpec(direction: Direction, pinning: bool, a: Story, b: Story)
  {
    || (pinning && a.isPinned && !b.isPinned)
    || ((!pinning || a.isPinned == b.isPinned) &&
        (if direction == Asc then a.publishedAt < b.publishedAt else a.publishedAt > b.publishedAt))
  }

  /** The sort specification built by `Chronologically` asks for exactly the
      chronological ordering. */
  lemma ChronologicallyMeans(direction: Direction, pinning: bool)
    ensures forall a, b :: Precedes(Chronologically(direction, pinning), a, b) <==> ChronologicalSpec(direction, pinning, a, b)
  {
    var order := Chronologically(direction, pinning);
    var dateTerm := if direction == Asc then [SortTerm(PublishedAt, Asc)] else [SortTerm(PublishedAt, Desc)];
    assert dateTerm[1..] == [];
    if pinning {
      assert order[1..] == dateTerm;
      forall a, b ensures Precedes(order, a, b) <==> ChronologicalSpec(direction, pinning, a, b) {
        assert Precedes(order[1..], a, b) <==> ChronologicalSpec(direction, false, a, b);
      }
    }
  }

  /** Every sort specification is a strict order: irreflexive and transitive. */
  lemma {:induction false} PrecedesIsStrictOrder(order: SortOrder, a: Story, b: Story, c: Story)
    ensures !Precedes(order, a, a)
    ensures Precedes(order, a, b) && Precedes(order, b, c) ==> Precedes(order, a, c)
    decreases |order|
  {
    if order != [] {
      PrecedesIsStrictOrder(order[1..], a, b, c);
    }
  }

  // ----- Stories listing -----

  datatype StoriesParams = StoriesParams(search: Option<string>, categoryId: Option<int>, localeCode: Option<string>,
                                         limit: Option<nat>, offset: Option<nat>)

  /** The search record sent by `stories`: `$in`/`$any` lists in its query
      and scope, absent filters left undefined. */
  datatype StoriesQuery = StoriesQuery(
    sortOrder: SortOrder, formats: seq<FormatVersion>, limit: Option<nat>, offset: Option<nat>, search: Option<string>,
    categoryAny: Option<seq<int>>, newsroomIn: seq<string>, localeIn: Option<seq<string>>,
    statusIn: seq<StoryStatus>, visibilityIn: seq<Visibility>, includes: seq<Include>)

  /** The stories a listing query's filters admit (`$in`: the field is one of
      the values; `$any`: one of the listed ids is among the story's). */
  predicate ListingAdmits(q: StoriesQuery, s: Story)
  {
    && s.newsroomUuid in q.newsroomIn
    && (q.localeIn.Some? ==> s.locale in q.localeIn.value)
    && s.status in q.statusIn
    && s.visibility in q.visibilityIn
    && (q.categoryAny.Some? ==> AnyIn(q.categoryAny.value, s.categoryIds))
  }

  /** `$any`: one of `ids` is among `owned`. */
  predicate AnyIn(ids: seq<int>, owned: set<int>)
  {
    |ids| > 0 && (ids[0] in owned || AnyIn(ids[1..], owned))
  }

  /** A `$any` list of one id matches exactly the stories having that id. */
  lemma AnyInSingleton()
    ensures forall id, owned :: AnyIn([id], owned) <==> id in owned
  {
    forall id: int, owned: set<int> ensures AnyIn([id], owned) <==> id in owned {
      assert [id][1..] == [];
    }
  }

  /** `stories(params)`: always this newsroom, published and public, sorted
      chronologically newest first (pinned first when pinning is on); the
      locale and category filters only when those parameters are given. */
  function StoriesQueryFor(c: Client, p: StoriesParams): (q: StoriesQuery)
    ensures forall s :: ListingAdmits(q, s) <==>
              && s.newsroomUuid == c.newsroomUuid && s.status == Published && s.visibility == Public
              && (p.localeCode.Some? ==> s.locale == p.localeCode.value)
              && (p.categoryId.Some? ==> p.categoryId.value in s.categoryIds)
    ensures q.localeIn.Some? <==> p.localeCode.Some?
    ensures q.categoryAny.Some? <==> p.categoryId.Some?
    ensures forall a, b :: Precedes(q.sortOrder, a, b) <==> ChronologicalSpec(Desc, c.pinning, a, b)
    ensures q.formats == c.formats && q.includes == [ThumbnailImage]
    ensures q.limit == p.limit && q.offset == p.offset && q.search == p.search
  {
    ChronologicallyMeans(Desc, c.pinning);
    var q := StoriesQuery(
      Chronologically(Desc, c.pinning), c.formats, p.limit, p.offset, p.search,
      if p.categoryId.Some? then Some([p.categoryId.value]) else None,
      [c.newsroomUuid],
      if p.localeCode.Some? then Some([p.localeCode.value]) else None,
      [Published], [Public], [ThumbnailImage]);
    ListingScope(c, p, q);
    q
  }

  lemma ListingScope(c: Client, p: StoriesParams, q: StoriesQuery)
    requires q.categoryAny == (if p.categoryId.Some? then Some([p.categoryId.value]) else None)
    requires q.localeIn == (if p.localeCode.Some? then Some([p.localeCode.value]) else None)
    requires q.newsroomIn == [c.newsroomUuid] && q.statusIn == [Published] && q.visibilityIn == [Public]
    ensures forall s :: ListingAdmits(q, s) <==>
              && s.newsroomUuid == c.newsroomUuid && s.status == Published && s.visibility == Public
              && (p.localeCode.Some? ==> s.locale == p.localeCode.value)
              && (p.categoryId.Some? ==> p.categoryId.value in s.categoryIds)
  {
    AnyInSingleton();
    forall s ensures ListingAdmits(q, s) <==>
              && s.newsroomUuid == c.newsroomUuid && s.status == Published && s.visibility == Public
              && (p.localeCode.Some? ==> s.locale == p.localeCode.value)
              && (p.categoryId.Some? ==> p.categoryId.value in s.categoryIds)
    {
      assert (q.categoryAny.Some? ==> AnyIn(q.categoryAny.value, s.categoryIds))
             <==> (p.categoryId.Some? ==> p.categoryId.value in s.categoryIds);
    }
  }

  // ----- Single story -----

  /** Exactly one of `uuid` and `slug` is given. */
  datatype StoryParams = ByUuid(uuid: string) | BySlug(slug: string)

  datatype StoryGet = StoryGet(uuid: string, formats: seq<FormatVersion>, includes: seq<Include>)

  /** The search record of the slug lookup; `slug` is undefined when the
      parameters carried an empty uuid and no slug. */
  datatype StorySearch = StorySearch(
    formats: seq<FormatVersion>, limit: nat, slug: Option<string>, newsroomIn: seq<string>,
    statusIn: seq<StoryStatus>, visibilityIn: seq<Visibility>, includes: seq<Include>)

  /** The stories a slug lookup's filters admit. */
  predicate SearchAdmits(q: StorySearch, s: Story)
  {
    && (q.slug.Some? ==> s.slug == q.slug.value)
    && s.newsroomUuid in q.newsroomIn
    && s.status in q.statusIn
    && s.visibility in q.visibilityIn
  }

  /** The uuid branch of `story` is taken only for a non-empty uuid. */
  predicate FetchesByUuid(params: StoryParams)
  {
    params.ByUuid? && params.uuid != ""
  }

  /** The slug lookup of `story`: limit 1, this newsroom, published or
      embargoed, public, private or embargoed, with the extended fields. */
  function SlugSearchFor(c: Client, params: StoryParams): (q: StorySearch)
    ensures q.limit == 1 && q.formats == c.formats && q.includes == [ExtendedStoryFields]
    ensures q.slug == (if params.BySlug? then Some(params.slug) else None)
    ensures forall s :: SearchAdmits(q, s) <==>
              && (params.BySlug? ==> s.slug == params.slug)
              && s.newsroomUuid == c.newsroomUuid
              && s.status in {Published, StoryStatus.Embargo}
              && s.visibility in {Public, Private, Visibility.Embargo}
  {
    StorySearch(c.formats, 1, if params.BySlug? then Some(params.slug) else None, [c.newsroomUuid],
                [Published, StoryStatus.Embargo], [Public, Private, Visibility.Embargo], [ExtendedStoryFields])
  }

  /** `story(params)`: by a non-empty uuid, a direct fetch whose
      not-available errors become `null`; otherwise the slug search, whose
      first hit (or `null`) is returned and whose errors all propagate. */
  function GetStory(c: Client, params: StoryParams,
                    get: StoryGet -> Response<Story>, search: StorySearch -> Response<seq<Story>>)
    : (r: Response<Option<Story>>)
    ensures FetchesByUuid(params) ==>
              r == NullIfNotAvailable(get(StoryGet(params.uuid, c.formats, [ExtendedStoryFields])))
    ensures !FetchesByUuid(params) ==>
              var found := search(SlugSearchFor(c, params));
              && (r.Ok? <==> found.Ok?)
              && (found.Thrown? ==> r == Thrown(found.failure))
              && (found.Ok? ==> r.value == (if |found.value| > 0 then Some(found.value[0]) else None))
  {
    if FetchesByUuid(params) then
      NullIfNotAvailable(get(StoryGet(params.uuid, c.formats, [ExtendedStoryFields])))
    else
      match search(SlugSearchFor(c, params))
      case Ok(stories) => Ok(if |stories| > 0 then Some(stories[0]) else None)
      case Thrown(f) => Thrown(f)
  }

  /** Every story the public listing could show is one the slug lookup may
      find under its own slug: the lookup's scope is the wider one. */
  lemma SlugScopeCoversListing(c: Client, p: StoriesParams, s: Story)
    requires ListingAdmits(StoriesQueryFor(c, p), s)
    ensures SearchAdmits(SlugSearchFor(c, BySlug(s.slug)), s)
  {
  }

  /** A 404 from the slug search is not turned into `null`, unlike the same
      status from the uuid fetch. */
  lemma SlugSearchErrorsPropagate(c: Client, slug: string, status: int,
                                  get: StoryGet -> Response<Story>, search: StorySearch -> Response<seq<Story>>)
    requires search(SlugSearchFor(c, BySlug(slug))) == Thrown(ApiError(status))
    ensures GetStory(c, BySlug(slug), get, search) == Thrown(ApiError(status))
  {
  }

  // ----- Theme and galleries -----

  datatype ThemeGet = ThemeGet(newsroomUuid: string, themeId: string)

  /** `theme()`: fetched only when the client has a non-empty theme id,
      otherwise undefined; errors of the fetch are not caught. */
  function GetTheme<T>(c: Client, get: ThemeGet -> Response<T>): (r: Response<Option<T>>)
    ensures c.themeId.None? || c.themeId.value == "" ==> r == Ok(None)
    ensures c.themeId.Some? && c.themeId.value != "" ==>
              var fetched := get(ThemeGet(c.newsroomUuid, c.themeId.value));
              && (fetched.Ok? ==> r == Ok(Some(fetched.value)))
              && (fetched.Thrown? ==> r == Thrown(fetched.failure))
  {
    if c.themeId.Some? && c.themeId.value != "" then
      match get(ThemeGet(c.newsroomUuid, c.themeId.value))
      case Ok(t) => Ok(Some(t))
      case Thrown(f) => Thrown(f)
    else Ok(None)
  }

  datatype GalleryGet = GalleryGet(newsroomUuid: string, uuid: string)

  /** `gallery(uuid)`: not-available errors become `null`; others propagate. */
  function GetGallery(c: Client, uuid: string, get: GalleryGet -> Response<Gallery>): (r: Response<Option<Gallery>>)
    ensures var fetched := get(GalleryGet(c.newsroomUuid, uuid));
            && (fetched.Ok? ==> r == Ok(Some(fetched.value)))
            && (r == Ok(None) <==> fetched.Thrown? && fetched.failure.ApiError? && IsNotAvailable(fetched.failure.status))
            && (r.Thrown? ==> fetched == Thrown(r.failure))
            && ((fetched.Thrown? && !(fetched.failure.ApiError? && IsNotAvailable(fetched.failure.status)))
                ==> r == Thrown(fetched.failure))
  {
    NullIfNotAvailable(get(GalleryGet(c.newsroomUuid, uuid)))
  }

  datatype GalleriesParams = GalleriesParams(offset: Option<nat>, limit: Option<nat>, galleryType: Option<GalleryType>)

  datatype GalleriesQuery = GalleriesQuery(newsroomUuid: string, limit: Option<nat>, offset: Option<nat>,
                                           status: GalleryStatus, isEmpty: bool, galleryType: Option<GalleryType>)

  /** The galleries a gallery search's scope admits. */
  predicate GalleryAdmits(q: GalleriesQuery, g: Gallery)
  {
    g.status == q.status && g.isEmpty == q.isEmpty && (q.galleryType.Some? ==> g.galleryType == q.galleryType.value)
  }

  /** `galleries(params)`: public, non-empty galleries of this newsroom,
      of the given type when one is given, paginated as asked. */
  function GalleriesQueryFor(c: Client, p: GalleriesParams): (q: GalleriesQuery)
    ensures q.newsroomUuid == c.newsroomUuid && q.limit == p.limit && q.offset == p.offset
    ensures forall g :: GalleryAdmits(q, g) <==>
              g.status == PublicGallery && !g.isEmpty && (p.galleryType.Some? ==> g.galleryType == p.galleryType.value)
  {
    GalleriesQuery(c.newsroomUuid, p.limit, p.offset, PublicGallery, false, p.galleryType)
  }
}
