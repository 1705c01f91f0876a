/**
 * The admin post API: two JSON files, the blog posts and the tutorials, treated as one store.
 * Creating a post validates the request, rejects a slug used in either file, routes the post to
 * one file, fills in defaults and writes back that one file; listing merges both files, tags
 * each post with its origin and sorts by publication date, newest first.
 *
 * File reads are inputs (`None` when the file is missing or not valid JSON), the outcome of the
 * single write is the input `writeOk`, and "today" and the date parser are parameters.
 */
module PostStore {
  import opened Options
  import opened Seqs
  import opened Posts
  import opened StableSort

  /** The JSON body of a create request; each key may be absent. */
  datatype CreateBody = CreateBody(
    title: Option<string>,
    slug: Option<string>,
    excerpt: Option<string>,
    content: Option<string>,
    featuredImageUrl: Option<string>,
    publishDate: Option<string>,
    category: Option<string>,
    order: Option<int>,
    images: Option<seq<string>>,
    postType: Option<string>)

  /** The two files of the store. */
  datatype Collection = BlogFile | TutorialFile

  /** A write of the whole `contents` to `target`. */
  datatype Write = Write(target: Collection, contents: seq<Post>)

  /** The HTTP answer: 201 with the new post, 400 or 500 with an error message. */
  datatype Response = Created(post: Post) | BadRequest(error: string) | ServerError(error: string)

  /** What a create request answers and which write it attempts, if any. */
  datatype CreateResult = CreateResult(response: Response, write: Option<Write>)

  /** Both collections as they are on disk. */
  datatype Store = Store(blog: seq<Post>, tutorials: seq<Post>)

  const MissingFields: string := "Missing required fields"
  const SlugExists: string := "Slug already exists"
  const SaveFailed: string := "Failed to save post"
  const InternalError: string := "Internal server error"

  /** A collection as read: a file that cannot be read or parsed counts as empty. */
  function Load(read: Option<seq<Post>>): seq<Post> {
    read.GetOr([])
  }

  /** Title, slug, excerpt and content are all present and non-empty. */
  predicate HasRequiredFields(b: CreateBody) {
    Truthy(b.title) && Truthy(b.slug) && Truthy(b.excerpt) && Truthy(b.content)
  }

  /** The post goes to the tutorials: its type (default `blog`) is `tutorial`, or its category is the tutorial one. */
  predicate RoutesToTutorial(b: CreateBody) {
    b.postType.GetOr("blog") == "tutorial" || b.category == Some(TutorialCategory)
  }

  /** Either collection already holds a post with this slug. */
  predicate SlugTaken(blog: seq<Post>, tutorials: seq<Post>, slug: string) {
    HasSlug(blog, slug) || HasSlug(tutorials, slug)
  }

  /** The stored record for a valid request, with the defaults filled in. */
  function NewPost(b: CreateBody, toTutorial: bool, today: string): (p: Post)
    requires HasRequiredFields(b)
    ensures p.slug == b.slug.value && p.title == b.title.value
    ensures p.excerpt == b.excerpt.value && p.content == b.content.value
    ensures p.publishDate == (if Truthy(b.publishDate) then b.publishDate.value else today)
    ensures p.featuredImageUrl == (if Truthy(b.featuredImageUrl) then b.featuredImageUrl.value else "")
    ensures Truthy(b.category) ==> p.category == b.category
    ensures !Truthy(b.category) ==> p.category == Some(if toTutorial then TutorialCategory else BlogCategory)
    ensures p.order.Some? <==> b.order.Some? && b.order.value != 0
    ensures p.order.Some? ==> p.order == b.order
    ensures p.images == b.images
  {
    Post(
      slug := b.slug.value,
      title := b.title.value,
      publishDate := if Truthy(b.publishDate) then b.publishDate.value else today,
      excerpt := b.excerpt.value,
      content := b.content.value,
      featuredImageUrl := b.featuredImageUrl.GetOr(""),
      category := if Truthy(b.category) then b.category else Some(if toTutorial then TutorialCategory else BlogCategory),
      order := if b.order.Some? && b.order.value != 0 then b.order else None,
      images := b.images)
  }

  /** The post a valid request stores. */
  function PostOf(b: CreateBody, today: string): Post
    requires HasRequiredFields(b)
  {
    NewPost(b, RoutesToTutorial(b), today)
  }

  /**
   * The stored category agrees with the routing: a post stored with the tutorial category was
   * routed to the tutorials, and when the request names no category the stored one is the
   * tutorial category exactly when the post goes to the tutorials.
   */
  lemma StoredCategoryAgreesWithRoute(b: CreateBody, today: string)
    requires HasRequiredFields(b)
    ensures PostOf(b, today).category == Some(TutorialCategory) ==> RoutesToTutorial(b)
    ensures !Truthy(b.category) ==> (PostOf(b, today).category == Some(TutorialCategory) <==> RoutesToTutorial(b))
  {
  }

  /**
   * Handles a create request. `body` is `None` when the request body is not valid JSON or is
   * `null`, the two cases in which reading its fields throws; any other JSON value is a body,
   * with every field it lacks absent.
   * The tutorial file is rewritten sorted by order; a blog post goes to the front of the blog file.
   */
  function Create(body: Option<CreateBody>, blogRead: Option<seq<Post>>, tutorialRead: Option<seq<Post>>,
                  today: string, writeOk: bool): (r: CreateResult)
    ensures r.write.Some? <==>
              body.Some? && HasRequiredFields(body.value)
              && !SlugTaken(Load(blogRead), Load(tutorialRead), body.value.slug.value)
    ensures r.response.Created? <==> r.write.Some? && writeOk
    ensures r.write.Some? ==> (r.write.value.target == TutorialFile <==> RoutesToTutorial(body.value))
    ensures r.response.Created? ==> r.response.post == PostOf(body.value, today)
  {
    if body.None? then CreateResult(ServerError(InternalError), None)
    else
      var b := body.value;
      if !HasRequiredFields(b) then CreateResult(BadRequest(MissingFields), None)
      else
        var blog := Load(blogRead);
        var tutorials := Load(tutorialRead);
        if SlugTaken(blog, tutorials, b.slug.value) then CreateResult(BadRequest(SlugExists), None)
        else
          var p := PostOf(b, today);
          var w := if RoutesToTutorial(b) then Write(TutorialFile, Sort(tutorials + [p], OrderKey))
                   else Write(BlogFile, [p] + blog);
          CreateResult(if writeOk then Created(p) else ServerError(SaveFailed), Some(w))
  }

  /** Each failure answers with its own status and message. */
  lemma CreateErrors(body: Option<CreateBody>, blogRead: Option<seq<Post>>, tutorialRead: Option<seq<Post>>,
                     today: string, writeOk: bool)
    ensures var r := Create(body, blogRead, tutorialRead, today, writeOk);
      && (body.None? ==> r.response == ServerError(InternalError))
      && (body.Some? && !HasRequiredFields(body.value) ==> r.response == BadRequest(MissingFields))
      && (body.Some? && HasRequiredFields(body.value)
          && SlugTaken(Load(blogRead), Load(tutorialRead), body.value.slug.value)
          ==> r.response == BadRequest(SlugExists))
      && (r.write.Some? && !writeOk ==> r.response == ServerError(SaveFailed))
  {
  }

  /** The store after a create: the attempted write replaces its file when it succeeds. */
  function After(st: Store, r: CreateResult, writeOk: bool): (st': Store)
    ensures r.write.None? || !writeOk ==> st' == st
    ensures r.write.Some? && writeOk && r.write.value.target == BlogFile
            ==> st' == Store(r.write.value.contents, st.tutorials)
    ensures r.write.Some? && writeOk && r.write.value.target == TutorialFile
            ==> st' == Store(st.blog, r.write.value.contents)
  {
    if r.write.None? || !writeOk then st
    else match r.write.value.target
      case BlogFile => Store(r.write.value.contents, st.tutorials)
      case TutorialFile => Store(st.blog, r.write.value.contents)
  }

  /** The create request applied to a store whose files both read successfully. */
  function CreateOn(st: Store, body: Option<CreateBody>, today: string, writeOk: bool): CreateResult {
    Create(body, Some(st.blog), Some(st.tutorials), today, writeOk)
  }

  /**
   * A tutorial create writes a stable sort by order of the tutorials with the new post appended:
   * one element longer, a permutation, the blog file untouched. When the tutorial file was
   * already sorted this is the insertion of the new post after every tutorial whose order is
   * not larger.
   */
  lemma CreateTutorialWrite(body: Option<CreateBody>, blogRead: Option<seq<Post>>, tutorialRead: Option<seq<Post>>,
                            today: string, writeOk: bool)
    requires var r := Create(body, blogRead, tutorialRead, today, writeOk);
             r.write.Some? && r.write.value.target == TutorialFile
    ensures var w := Create(body, blogRead, tutorialRead, today, writeOk).write.value;
            var p := PostOf(body.value, today);
      && IsStableSortOf(w.contents, Load(tutorialRead) + [p], OrderKey)
      && |w.contents| == |Load(tutorialRead)| + 1
      && p in w.contents
      && (SortedBy(Load(tutorialRead), OrderKey) ==> w.contents == Insert(p, Load(tutorialRead), OrderKey))
  {
    var p := PostOf(body.value, today);
    var s := Load(tutorialRead) + [p];
    SortIsStable(s, OrderKey);
    assert p in multiset(s);
    if SortedBy(Load(tutorialRead), OrderKey) {
      SortAppendSorted(Load(tutorialRead), p, OrderKey);
    }
  }

  /** A blog create writes the new post followed by the blog posts in their order. */
  lemma CreateBlogWrite(body: Option<CreateBody>, blogRead: Option<seq<Post>>, tutorialRead: Option<seq<Post>>,
                        today: string, writeOk: bool)
    requires var r := Create(body, blogRead, tutorialRead, today, writeOk);
             r.write.Some? && r.write.value.target == BlogFile
    ensures var w := Create(body, blogRead, tutorialRead, today, writeOk).write.value;
      w.contents == [PostOf(body.value, today)] + Load(blogRead)
  {
  }

  /**
   * A blog file that cannot be read is overwritten: a successful blog create leaves the new
   * post as the only blog post.
   */
  lemma UnreadableBlogOverwritten(body: CreateBody, tutorialRead: Option<seq<Post>>, today: string)
    requires HasRequiredFields(body) && !RoutesToTutorial(body)
    requires !HasSlug(Load(tutorialRead), body.slug.value)
    ensures var r := Create(Some(body), None, tutorialRead, today, true);
      r.response.Created? && r.write == Some(Write(BlogFile, [PostOf(body, today)]))
  {
    assert [PostOf(body, today)] + [] == [PostOf(body, today)];
  }

  /** A post whose slug is in neither collection extends the combined collections without a clash. */
  lemma FreshSlugKeepsUnique(st: Store, p: Post)
    requires UniqueSlugs(st.blog + st.tutorials)
    requires !SlugTaken(st.blog, st.tutorials, p.slug)
    ensures UniqueSlugs(st.blog + st.tutorials + [p])
  {
    var all := st.blog + st.tutorials;
    assert !HasSlug(all, p.slug) by {
      forall i | 0 <= i < |all| ensures all[i].slug != p.slug {
        if i < |st.blog| {
          assert all[i] == st.blog[i];
        } else {
          assert all[i] == st.tutorials[i - |st.blog|];
        }
      }
    }
    UniqueSlugsAppend(all, p);
  }

  /** Sorting the tutorials with a fresh post appended keeps slugs unique across both collections. */
  lemma TutorialWriteKeepsUnique(blog: seq<Post>, tutorials: seq<Post>, p: Post)
    requires UniqueSlugs(blog + tutorials + [p])
    ensures UniqueSlugs(blog + Sort(tutorials + [p], OrderKey))
  {
    var t := tutorials + [p];
    var sorted := Sort(t, OrderKey);
    SortSortsAndPermutes(t, OrderKey);
    assert blog + tutorials + [p] == blog + t;
    assert multiset(blog + t) == multiset(blog) + multiset(t);
    assert multiset(blog + sorted) == multiset(blog) + multiset(sorted);
    UniqueSlugsPermutation(blog + t, blog + sorted);
  }

  /** Putting a fresh post in front of the blog posts keeps slugs unique across both collections. */
  lemma BlogWriteKeepsUnique(blog: seq<Post>, tutorials: seq<Post>, p: Post)
    requires UniqueSlugs(blog + tutorials + [p])
    ensures UniqueSlugs([p] + blog + tutorials)
  {
    assert multiset([p] + blog + tutorials) == multiset(blog + tutorials + [p]);
    UniqueSlugsPermutation(blog + tutorials + [p], [p] + blog + tutorials);
  }

  /** The write of a create that gets past validation. */
  lemma CreateWrite(body: Option<CreateBody>, blogRead: Option<seq<Post>>, tutorialRead: Option<seq<Post>>,
                    today: string, writeOk: bool)
    requires Create(body, blogRead, tutorialRead, today, writeOk).write.Some?
    ensures var p := PostOf(body.value, today);
      Create(body, blogRead, tutorialRead, today, writeOk).write.value
      == if RoutesToTutorial(body.value) then Write(TutorialFile, Sort(Load(tutorialRead) + [p], OrderKey))
         else Write(BlogFile, [p] + Load(blogRead))
  {
  }

  /** Slugs unique across both collections stay unique after any create. */
  lemma CreateKeepsSlugsUnique(st: Store, body: Option<CreateBody>, today: string, writeOk: bool)
    requires UniqueSlugs(st.blog + st.tutorials)
    ensures var st' := After(st, CreateOn(st, body, today, writeOk), writeOk);
      UniqueSlugs(st'.blog + st'.tutorials)
  {
    var r := CreateOn(st, body, today, writeOk);
    if r.write.Some? && writeOk {
      var p := PostOf(body.value, today);
      FreshSlugKeepsUnique(st, p);
      CreateWrite(body, Some(st.blog), Some(st.tutorials), today, writeOk);
      if RoutesToTutorial(body.value) {
        TutorialWriteKeepsUnique(st.blog, st.tutorials, p);
      } else {
        BlogWriteKeepsUnique(st.blog, st.tutorials, p);
      }
    }
  }

  /**
   * A blog file that cannot be read is checked as if it were empty, so a tutorial create may take
   * the slug of a blog post and leave two posts with the same slug.
   */
  lemma UnreadableBlogAdmitsDuplicate(st: Store, body: CreateBody, today: string)
    requires HasRequiredFields(body) && RoutesToTutorial(body)
    requires HasSlug(st.blog, body.slug.value) && !HasSlug(st.tutorials, body.slug.value)
    ensures var r := Create(Some(body), None, Some(st.tutorials), today, true);
      var st' := After(st, r, true);
      r.response.Created? && st'.blog == st.blog && !UniqueSlugs(st'.blog + st'.tutorials)
  {
    var p := PostOf(body, today);
    var r := Create(Some(body), None, Some(st.tutorials), today, true);
    CreateTutorialWrite(Some(body), None, Some(st.tutorials), today, true);
    var w := r.write.value.contents;
    var all := st.blog + w;
    var i :| 0 <= i < |st.blog| && st.blog[i].slug == body.slug.value;
    var k :| 0 <= k < |w| && w[k] == p;
    assert all[i] == st.blog[i] && all[|st.blog| + k] == p;
  }

  /**
   * A tutorial created without an order sorts as order 0, so it goes in front of every tutorial
   * whose order is positive, although the form announces that such a tutorial is put last.
   */
  lemma UnorderedTutorialGoesFirst(body: CreateBody, blogRead: Option<seq<Post>>, tutorialRead: Option<seq<Post>>,
                                   today: string, writeOk: bool)
    requires HasRequiredFields(body) && RoutesToTutorial(body)
    requires !SlugTaken(Load(blogRead), Load(tutorialRead), body.slug.value)
    requires body.order.None?
    requires SortedBy(Load(tutorialRead), OrderKey)
    requires forall i | 0 <= i < |Load(tutorialRead)| :: OrderKey(Load(tutorialRead)[i]) > 0
    ensures var w := Create(Some(body), blogRead, tutorialRead, today, writeOk).write;
      w == Some(Write(TutorialFile, [PostOf(body, today)] + Load(tutorialRead)))
  {
    var p := PostOf(body, today);
    var t := Load(tutorialRead);
    SortAppendSorted(t, p, OrderKey);
    assert OrderKey(p) == 0;
    if |t| == 0 {
      assert [p] + t == [p];
    }
  }

  /** Every post of `s`, tagged with origin `o`. */
  function TagAll(s: seq<Post>, o: Origin): (r: seq<Tagged>)
    ensures |r| == |s|
    ensures forall i | 0 <= i < |r| :: r[i].post == s[i] && r[i].origin == o
  {
    seq(|s|, i requires 0 <= i < |s| => Tagged(s[i], o))
  }

  /** A post is tagged in `TagAll(s, o)` exactly when it is in `s`. */
  lemma TaggedMember(s: seq<Post>, o: Origin, p: Post)
    ensures Tagged(p, o) in TagAll(s, o) <==> p in s
  {
    var t := TagAll(s, o);
    if p in s {
      var i :| 0 <= i < |s| && s[i] == p;
      assert t[i] == Tagged(p, o);
    }
    if Tagged(p, o) in t {
      var i :| 0 <= i < |t| && t[i] == Tagged(p, o);
      assert s[i] == p;
    }
  }

  /** The listing sort key: later publication dates come first. */
  function ListKey(dateValue: string -> int): Tagged -> int {
    (t: Tagged) => -dateValue(t.post.publishDate)
  }

  /** The blog posts, then the tutorials, each tagged with its origin. */
  function Merged(blogRead: Option<seq<Post>>, tutorialRead: Option<seq<Post>>): seq<Tagged> {
    TagAll(Load(blogRead), Blog) + TagAll(Load(tutorialRead), Tutorial)
  }

  /** Lists every post of both collections, newest first; `dateValue` parses a publication date. */
  function List(blogRead: Option<seq<Post>>, tutorialRead: Option<seq<Post>>, dateValue: string -> int): (r: seq<Tagged>)
    ensures |r| == |Load(blogRead)| + |Load(tutorialRead)|
    ensures multiset(r) == multiset(Merged(blogRead, tutorialRead))
    ensures SortedBy(r, ListKey(dateValue))
  {
    SortSortsAndPermutes(Merged(blogRead, tutorialRead), ListKey(dateValue));
    Sort(Merged(blogRead, tutorialRead), ListKey(dateValue))
  }

  /**
   * The listing holds exactly the tagged posts of both collections, with publication dates never
   * increasing; posts with equal dates keep their order, blog posts before tutorials.
   */
  lemma ListSorted(blogRead: Option<seq<Post>>, tutorialRead: Option<seq<Post>>, dateValue: string -> int)
    ensures var r := List(blogRead, tutorialRead, dateValue);
      && multiset(r) == multiset(Merged(blogRead, tutorialRead))
      && (forall i, j | 0 <= i < j < |r| :: dateValue(r[i].post.publishDate) >= dateValue(r[j].post.publishDate))
      && (forall k :: KeyClass(r, ListKey(dateValue), k)
                      == KeyClass(TagAll(Load(blogRead), Blog), ListKey(dateValue), k)
                         + KeyClass(TagAll(Load(tutorialRead), Tutorial), ListKey(dateValue), k))
  {
    var key := ListKey(dateValue);
    var b := TagAll(Load(blogRead), Blog);
    var t := TagAll(Load(tutorialRead), Tutorial);
    var r := List(blogRead, tutorialRead, dateValue);
    SortIsStable(b + t, key);
    forall i, j | 0 <= i < j < |r| ensures dateValue(r[i].post.publishDate) >= dateValue(r[j].post.publishDate) {
      assert key(r[i]) <= key(r[j]);
    }
    forall k ensures KeyClass(r, key, k) == KeyClass(b, key, k) + KeyClass(t, key, k) {
      KeyClassConcat(b, t, key, k);
    }
  }

  /** A post is listed with origin blog exactly when it is a blog post, and likewise for tutorials. */
  lemma ListOrigins(blogRead: Option<seq<Post>>, tutorialRead: Option<seq<Post>>, dateValue: string -> int, p: Post)
    ensures Tagged(p, Blog) in List(blogRead, tutorialRead, dateValue) <==> p in Load(blogRead)
    ensures Tagged(p, Tutorial) in List(blogRead, tutorialRead, dateValue) <==> p in Load(tutorialRead)
  {
    var m := Merged(blogRead, tutorialRead);
    var key := ListKey(dateValue);
    var r := List(blogRead, tutorialRead, dateValue);
    assert r == Sort(m, key);
    SortSortsAndPermutes(m, key);
    assert multiset(r) == multiset(m);
    assert Tagged(p, Blog) in r <==> Tagged(p, Blog) in multiset(m);
    assert Tagged(p, Tutorial) in r <==> Tagged(p, Tutorial) in multiset(m);
    MergedOrigins(Load(blogRead), Load(tutorialRead), p);
  }

  /** In the merged collections a post carries the tag of the collection it comes from. */
  lemma MergedOrigins(blog: seq<Post>, tutorials: seq<Post>, p: Post)
    ensures Tagged(p, Blog) in TagAll(blog, Blog) + TagAll(tutorials, Tutorial) <==> p in blog
    ensures Tagged(p, Tutorial) in TagAll(blog, Blog) + TagAll(tutorials, Tutorial) <==> p in tutorials
  {
    var b := TagAll(blog, Blog);
    var t := TagAll(tutorials, Tutorial);
    TaggedMember(blog, Blog, p);
    TaggedMember(tutorials, Tutorial, p);
    assert Tagged(p, Tutorial) !in b;
    assert Tagged(p, Blog) !in t;
  }

  /**
   * The listing is the only order a stable newest-first sort can produce: any sequence sorted by
   * date whose equal-date groups are those of the merged collections is the listing.
   */
  lemma ListIsTheStableSort(blogRead: Option<seq<Post>>, tutorialRead: Option<seq<Post>>,
                            dateValue: string -> int, q: seq<Tagged>)
    requires IsStableSortOf(q, Merged(blogRead, tutorialRead), ListKey(dateValue))
    ensures q == List(blogRead, tutorialRead, dateValue)
  {
    var m := Merged(blogRead, tutorialRead);
    var key := ListKey(dateValue);
    SortIsStable(m, key);
    StableSortUnique(q, Sort(m, key), key);
  }
}
