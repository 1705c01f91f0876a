/**
 * The admin editor form for posts: its initial contents, the slug it generates from the title,
 * the checks made before submitting, and the request it sends to the post API.
 */
module BlogForm {
  import opened Options
  import opened Seqs
  import opened Strings
  import opened Posts
  import opened StableSort
  import opened PostStore

  /**
   * The form fields. `order` is the order text field, parsed (`None` when left empty); `images`
   * is the text area holding one image path per line.
   */
  datatype FormData = FormData(
    title: string,
    slug: string,
    excerpt: string,
    content: string,
    featuredImageUrl: string,
    publishDate: string,
    category: string,
    order: Option<int>,
    images: string)

  datatype HttpMethod = HttpPost | HttpPut

  /** A request the form sends. */
  datatype Submission = Submission(verb: HttpMethod, url: string, body: CreateBody)

  const PostsEndpoint: string := "/api/admin/posts"

  // ---------------------------------------------------------------------------
  // Initial contents
  // ---------------------------------------------------------------------------

  /** The form's initial contents, from the post being edited if any; `today` is the current date. */
  function InitialForm(initial: Option<Post>, today: string): (f: FormData)
    ensures initial.None? ==> && f.title == "" && f.slug == "" && f.excerpt == "" && f.content == ""
                              && f.featuredImageUrl == "" && f.order.None? && f.images == ""
    ensures initial.None? ==> f.publishDate == today
    ensures initial.Some? ==> var p := initial.value;
      && f.title == p.title && f.slug == p.slug && f.excerpt == p.excerpt && f.content == p.content
      && f.featuredImageUrl == p.featuredImageUrl && f.order == p.order
    ensures initial.Some? && initial.value.publishDate != "" ==> f.publishDate == initial.value.publishDate
    ensures initial.Some? && initial.value.publishDate == "" ==> f.publishDate == today
    ensures initial.Some? && initial.value.images.Some? ==> f.images == JoinWith(initial.value.images.value, '\n')
    ensures initial.Some? && initial.value.images.None? ==> f.images == ""
    ensures f.category == (if initial.Some? && Truthy(initial.value.category) then initial.value.category.value
                           else BlogCategory)
    ensures f.category != ""
  {
    match initial
    case None => FormData("", "", "", "", "", today, BlogCategory, None, "")
    case Some(p) =>
      FormData(
        title := p.title,
        slug := p.slug,
        excerpt := p.excerpt,
        content := p.content,
        featuredImageUrl := p.featuredImageUrl,
        publishDate := if p.publishDate != "" then p.publishDate else today,
        category := if Truthy(p.category) then p.category.value else BlogCategory,
        order := p.order,
        images := if p.images.Some? then JoinWith(p.images.value, '\n') else "")
  }

  // ---------------------------------------------------------------------------
  // Slug generation
  // ---------------------------------------------------------------------------

  /** Characters the first cleanup keeps: `[\w\s-]`. */
  predicate SlugKeep(c: char) { IsJsWord(c) || IsJsSpace(c) || c == '-' }

  /** Characters whose runs become one dash: `[\s_-]`. */
  predicate SlugSep(c: char) { IsJsSpace(c) || c == '_' || c == '-' }

  /** The characters a generated slug consists of: `[a-z0-9-]`. */
  predicate IsSlugChar(c: char) { IsAsciiLower(c) || IsAsciiDigit(c) || c == '-' }

  /** ASCII letters and digits: the characters of a title that survive into its slug. */
  predicate IsAlnum(c: char) { IsAsciiLower(c) || IsAsciiUpper(c) || IsAsciiDigit(c) }

  /**
   * The slug generated from a title: lower-cased, characters outside `[\w\s-]` deleted, runs of
   * `[\s_-]` turned into one dash, dashes at either end removed.
   */
  function Slugify(title: string): (r: string)
    ensures DashTidy(r)
  {
    CollapsedSlugShape(title);
    StripDashesTidies(CollapseRuns(Filter(Lower(title), SlugKeep), SlugSep));
    Strip(CollapseRuns(Filter(Lower(title), SlugKeep), SlugSep), IsDash)
  }

  /** Before the dashes are stripped, a slug already consists of `[a-z0-9-]` and has no `--`. */
  lemma CollapsedSlugShape(title: string)
    ensures var c := CollapseRuns(Filter(Lower(title), SlugKeep), SlugSep);
      (forall i | 0 <= i < |c| :: IsSlugChar(c[i])) && NoDoubleDash(c)
  {
    var lowered := Lower(title);
    FilterPreserves(lowered, SlugKeep, NotUpper);
    var kept := Filter(lowered, SlugKeep);
    assert forall i | 0 <= i < |kept| :: SlugKeepLower(kept[i]);
    CollapseRunsPreserves(kept, SlugSep, SlugKeepLower);
  }

  predicate NotUpper(c: char) { !IsAsciiUpper(c) }

  /** A kept character that is not an upper-case letter. */
  predicate SlugKeepLower(c: char) { SlugKeep(c) && !IsAsciiUpper(c) }

  /** A generated slug consists of `[a-z0-9-]`, has no `--` and no dash at either end. */
  lemma SlugifyShape(title: string)
    ensures var r := Slugify(title);
      (forall i | 0 <= i < |r| :: IsSlugChar(r[i])) && DashTidy(r)
  {
    var c := CollapseRuns(Filter(Lower(title), SlugKeep), SlugSep);
    CollapsedSlugShape(title);
    StripDashesTidies(c);
    var a := StripStart(c, IsDash);
    var r := Slugify(title);
    forall i | 0 <= i < |r| ensures IsSlugChar(r[i]) {
      assert r[i] == c[a + i];
    }
  }

  /** A slug is its own slug: generating a slug from a generated slug changes nothing. */
  lemma SlugifyIdempotent(title: string)
    ensures Slugify(Slugify(title)) == Slugify(title)
  {
    SlugifyShape(title);
    SlugOfSlug(Slugify(title));
  }

  /** A string of slug characters without stray dashes passes every step of slug generation unchanged. */
  lemma SlugOfSlug(s: string)
    requires forall i | 0 <= i < |s| :: IsSlugChar(s[i])
    requires DashTidy(s)
    ensures Slugify(s) == s
  {
    var l := Lower(s);
    assert l == s by {
      forall i | 0 <= i < |s| ensures l[i] == s[i] {
        assert IsSlugChar(s[i]);
      }
    }
    forall i | 0 <= i < |s| ensures SlugKeep(s[i]) && (SlugSep(s[i]) ==> s[i] == '-') {
      assert IsSlugChar(s[i]);
    }
    FilterKeepsAll(s, SlugKeep);
    var k := Filter(l, SlugKeep);
    assert k == s;
    forall i | 0 <= i < |s| - 1 ensures !(SlugSep(s[i]) && SlugSep(s[i + 1])) {
      assert IsSlugChar(s[i]) && IsSlugChar(s[i + 1]);
    }
    CollapseRunsFixed(s, SlugSep);
    var c := CollapseRuns(k, SlugSep);
    assert c == s;
    StripNothing(s, IsDash);
  }

  /** A title without any ASCII letter or digit (a title written in Chinese, say) yields an empty slug. */
  lemma SlugifyWithoutAlnum(title: string)
    requires forall i | 0 <= i < |title| :: !IsAlnum(title[i])
    ensures Slugify(title) == ""
  {
    var lowered := Lower(title);
    assert forall i | 0 <= i < |lowered| :: !IsAlnum(lowered[i]);
    FilterPreserves(lowered, SlugKeep, NotAlnum);
    var kept := Filter(lowered, SlugKeep);
    var collapsed := CollapseRuns(kept, SlugSep);
    assert forall i | 0 <= i < |kept| :: SlugSep(kept[i]);
    assert forall i | 0 <= i < |collapsed| :: IsDash(collapsed[i]);
    StripEmpty(collapsed, IsDash);
  }

  predicate NotAlnum(c: char) { !IsAlnum(c) }

  /** Slug generation on a form: only when creating, with a title and an empty slug. */
  function AutoSlug(isEdit: bool, form: FormData): (f: FormData)
    ensures f.slug != form.slug ==> !isEdit && form.title != "" && form.slug == ""
    ensures !isEdit && form.title != "" && form.slug == "" ==> f.slug == Slugify(form.title)
    ensures f == form.(slug := f.slug)
  {
    if !isEdit && form.title != "" && form.slug == "" then form.(slug := Slugify(form.title)) else form
  }

  /** Running the slug generation again, as the form does whenever the slug changes, has no further effect. */
  lemma AutoSlugIdempotent(isEdit: bool, form: FormData)
    ensures AutoSlug(isEdit, AutoSlug(isEdit, form)) == AutoSlug(isEdit, form)
  {
  }

  /**
   * Typing the title key by key: once a prefix gives a non-empty slug, extending the title keeps
   * that slug, because the effect only fills an empty one.
   */
  lemma TypingKeepsFirstSlug(form: FormData, first: string, typed: string)
    requires form.slug == "" && first != "" && Slugify(first) != ""
    ensures var f := AutoSlug(false, form.(title := first));
            AutoSlug(false, f.(title := first + typed)).slug == Slugify(first)
  {
  }

  // ---------------------------------------------------------------------------
  // Submission
  // ---------------------------------------------------------------------------

  /** Submitting needs a title, content and excerpt; the slug is not checked here. */
  predicate CanSubmit(form: FormData) {
    form.title != "" && form.content != "" && form.excerpt != ""
  }

  /** A tutorial without an order asks for confirmation, announcing that it will be put last. */
  predicate AsksOrderConfirmation(form: FormData) {
    form.category == TutorialCategory && form.order.None?
  }

  /** A string is not empty (the `filter(Boolean)` test on strings). */
  predicate NonEmpty(s: string) { s != [] }

  /** Every string of `parts`, trimmed. */
  function TrimAll(parts: seq<string>): (r: seq<string>)
    ensures |r| == |parts|
    ensures forall i | 0 <= i < |r| :: r[i] == Strip(parts[i], IsJsSpace)
  {
    seq(|parts|, i requires 0 <= i < |parts| => Strip(parts[i], IsJsSpace))
  }

  /** An image path as the form sends it: non-empty, trimmed, on one line. */
  predicate CleanImage(s: string) {
    s != [] && !IsJsSpace(s[0]) && !IsJsSpace(s[|s| - 1]) && '\n' !in s
  }

  /**
   * The image list of the text area: none if the text is blank, otherwise its lines trimmed,
   * with empty lines dropped.
   */
  function ParseImages(text: string): (r: Option<seq<string>>)
    ensures r.None? <==> forall i | 0 <= i < |text| :: IsJsSpace(text[i])
  {
    StripEmpty(text, IsJsSpace);
    if Strip(text, IsJsSpace) == [] then None
    else Some(Filter(TrimAll(SplitOn(text, '\n')), NonEmpty))
  }

  /** Every element of `images` is a clean image path. */
  predicate AllClean(images: seq<string>) {
    forall i | 0 <= i < |images| :: CleanImage(images[i])
  }

  /** A trimmed line is empty or a clean image path. */
  lemma TrimmedLine(line: string)
    requires '\n' !in line
    ensures var t := Strip(line, IsJsSpace); t == [] || CleanImage(t)
  {
    var t := Strip(line, IsJsSpace);
    var a := StripStart(line, IsJsSpace);
    forall i | 0 <= i < |t| ensures t[i] != '\n' {
      assert t[i] == line[a + i];
    }
  }

  /** A trimmed line kept by the filter is a clean image path. */
  predicate EmptyOrClean(s: string) { s == [] || CleanImage(s) }

  /** Every image path read from the text area is non-empty, trimmed and on one line. */
  lemma ParseImagesClean(text: string)
    ensures ParseImages(text).Some? ==> AllClean(ParseImages(text).value)
  {
    if ParseImages(text).Some? {
      var lines := SplitOn(text, '\n');
      var trimmed := TrimAll(lines);
      forall i | 0 <= i < |trimmed| ensures EmptyOrClean(trimmed[i]) {
        TrimmedLine(lines[i]);
      }
      FilterPreserves(trimmed, NonEmpty, EmptyOrClean);
    }
  }

  /** The first character of a join is that of its first piece. */
  lemma JoinFirst(parts: seq<string>, sep: char)
    requires |parts| > 0 && |parts[0]| > 0
    ensures |JoinWith(parts, sep)| > 0 && JoinWith(parts, sep)[0] == parts[0][0]
  {
  }

  /** Trimming clean image paths changes nothing. */
  lemma TrimAllClean(images: seq<string>)
    requires AllClean(images)
    ensures TrimAll(images) == images
  {
    forall i | 0 <= i < |images| ensures TrimAll(images)[i] == images[i] {
      StripNothing(images[i], IsJsSpace);
    }
  }

  /** Clean image paths written one per line, as the edit form shows them, are read back unchanged. */
  lemma ParseImagesJoin(images: seq<string>)
    requires AllClean(images)
    ensures ParseImages(JoinWith(images, '\n')) == if images == [] then None else Some(images)
  {
    var text := JoinWith(images, '\n');
    if images != [] {
      JoinFirst(images, '\n');
      assert !IsJsSpace(text[0]);
      assert forall i | 0 <= i < |images| :: '\n' !in images[i];
      SplitJoin(images, '\n');
      TrimAllClean(images);
      FilterKeepsAll(images, NonEmpty);
    }
  }

  /** The request body the form sends; its type is derived from the category. */
  function Request(form: FormData): (b: CreateBody)
    ensures && b.title == Some(form.title) && b.slug == Some(form.slug) && b.excerpt == Some(form.excerpt)
            && b.content == Some(form.content) && b.featuredImageUrl == Some(form.featuredImageUrl)
            && b.publishDate == Some(form.publishDate) && b.category == Some(form.category)
    ensures b.postType == Some(if form.category == TutorialCategory then "tutorial" else "blog")
    ensures b.order == form.order
    ensures b.images == ParseImages(form.images)
    ensures b.images.None? <==> forall i | 0 <= i < |form.images| :: IsJsSpace(form.images[i])
  {
    CreateBody(
      title := Some(form.title),
      slug := Some(form.slug),
      excerpt := Some(form.excerpt),
      content := Some(form.content),
      featuredImageUrl := Some(form.featuredImageUrl),
      publishDate := Some(form.publishDate),
      category := Some(form.category),
      order := form.order,
      images := ParseImages(form.images),
      postType := Some(if form.category == TutorialCategory then "tutorial" else "blog"))
  }

  /** Where the form sends its request; editing without initial data targets the slug `undefined`. */
  function Endpoint(isEdit: bool, initialSlug: Option<string>): (url: string)
    ensures !isEdit ==> url == PostsEndpoint
    ensures isEdit ==> StartsWith(url, PostsEndpoint + "/")
    ensures isEdit && initialSlug.Some? ==> url[|PostsEndpoint| + 1..] == initialSlug.value
  {
    if isEdit then PostsEndpoint + "/" + initialSlug.GetOr("undefined") else PostsEndpoint
  }

  /**
   * Submitting the form: nothing is sent when a required field is empty or the user declines to
   * continue with an unordered tutorial; otherwise a POST (create) or PUT (edit) of the request.
   */
  function Submit(form: FormData, isEdit: bool, initialSlug: Option<string>, confirmed: bool): (r: Option<Submission>)
    ensures r.Some? <==> CanSubmit(form) && (AsksOrderConfirmation(form) ==> confirmed)
    ensures r.Some? ==> r.value.verb == (if isEdit then HttpPut else HttpPost)
    ensures r.Some? ==> r.value.url == Endpoint(isEdit, initialSlug) && r.value.body == Request(form)
  {
    if !CanSubmit(form) then None
    else if AsksOrderConfirmation(form) && !confirmed then None
    else Some(Submission(if isEdit then HttpPut else HttpPost, Endpoint(isEdit, initialSlug), Request(form)))
  }

  /**
   * Opening a post in the editor and submitting it unchanged sends the post's own fields back,
   * provided it has a publication date and a category and its image list, if any, is a non-empty
   * list of clean paths (an empty list comes back as no list at all).
   */
  lemma EditResubmitsPost(p: Post, today: string)
    requires p.publishDate != "" && Truthy(p.category)
    requires p.images.Some? ==> p.images.value != [] && AllClean(p.images.value)
    ensures var b := Request(InitialForm(Some(p), today));
      && b.title == Some(p.title) && b.slug == Some(p.slug) && b.excerpt == Some(p.excerpt)
      && b.content == Some(p.content) && b.featuredImageUrl == Some(p.featuredImageUrl)
      && b.publishDate == Some(p.publishDate) && b.category == p.category
      && b.order == p.order && b.images == p.images
  {
    if p.images.Some? {
      ParseImagesJoin(p.images.value);
    }
  }

  // ---------------------------------------------------------------------------
  // The form and the API together
  // ---------------------------------------------------------------------------

  /** The API routes a form's post to the tutorials exactly when its category is the tutorial one. */
  lemma RequestRoutesByCategory(form: FormData)
    ensures RoutesToTutorial(Request(form)) <==> form.category == TutorialCategory
  {
  }

  /**
   * The API accepts the fields of a submittable form exactly when its slug is non-empty, the one
   * required field the form does not check itself.
   */
  lemma SubmittedFieldsValidIffSlug(form: FormData)
    requires CanSubmit(form)
    ensures HasRequiredFields(Request(form)) <==> form.slug != ""
  {
  }

  /**
   * A new post titled only in characters other than ASCII letters and digits gets no slug, so
   * its creation is refused for a missing field.
   */
  lemma NonAsciiTitleRefused(form: FormData, blogRead: Option<seq<Post>>, tutorialRead: Option<seq<Post>>,
                             today: string, writeOk: bool)
    requires form.slug == "" && form.title != ""
    requires forall i | 0 <= i < |form.title| :: !IsAlnum(form.title[i])
    ensures var f := AutoSlug(false, form);
      Create(Some(Request(f)), blogRead, tutorialRead, today, writeOk).response == BadRequest(MissingFields)
  {
    SlugifyWithoutAlnum(form.title);
  }

  /**
   * The form warns that a tutorial without an order "will be put last", but the API sorts it
   * in front of every tutorial that has a positive order.
   */
  lemma UnorderedTutorialNotLast(form: FormData, blogRead: Option<seq<Post>>, tutorialRead: Option<seq<Post>>,
                                 today: string, writeOk: bool)
    requires CanSubmit(form) && form.slug != "" && AsksOrderConfirmation(form)
    requires !SlugTaken(Load(blogRead), Load(tutorialRead), form.slug)
    requires SortedBy(Load(tutorialRead), OrderKey)
    requires forall i | 0 <= i < |Load(tutorialRead)| :: OrderKey(Load(tutorialRead)[i]) > 0
    ensures var b := Submit(form, false, None, true).value.body;
      Create(Some(b), blogRead, tutorialRead, today, writeOk).write
      == Some(Write(TutorialFile, [PostOf(b, today)] + Load(tutorialRead)))
  {
    UnorderedTutorialGoesFirst(Request(form), blogRead, tutorialRead, today, writeOk);
  }
}
