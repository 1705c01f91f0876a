/**
 * The post record shared by the blog and tutorial collections, and the facts about slugs that
 * the store relies on.
 */
module Posts {
  import opened Options
  import opened Seqs

  /** Category of ordinary blog posts ("photography notes"). */
  const BlogCategory: string := "摄影手记"

  /** Category of tutorials ("photography tutorials"). */
  const TutorialCategory: string := "摄影教程"

  /**
   * A stored post. `category`, `order` and `images` are optional keys of the JSON record;
   * `publishDate` is kept as the text stored in the file.
   */
  datatype Post = Post(
    slug: string,
    title: string,
    publishDate: string,
    excerpt: string,
    content: string,
    featuredImageUrl: string,
    category: Option<string>,
    order: Option<int>,
    images: Option<seq<string>>)

  /** The collection a listed post was read from. */
  datatype Origin = Blog | Tutorial

  /** A post as listed: the record plus the collection it came from. */
  datatype Tagged = Tagged(post: Post, origin: Origin)

  /** The tutorial sort key: the post's order, or 0 when it has none (`a.order || 0`). */
  function OrderKey(p: Post): int {
    p.order.GetOr(0)
  }

  /** A JavaScript string field that is present and non-empty, i.e. truthy. */
  predicate Truthy(s: Option<string>) {
    s.Some? && s.value != ""
  }

  /** Some post of `s` has slug `slug` (`s.some(post => post.slug === slug)`). */
  predicate HasSlug(s: seq<Post>, slug: string) {
    exists i | 0 <= i < |s| :: s[i].slug == slug
  }

  /** No two posts of `s` share a slug. */
  ghost predicate UniqueSlugs(s: seq<Post>) {
    forall i, j | 0 <= i < j < |s| :: s[i].slug != s[j].slug
  }

  /** Appending a post whose slug is new keeps the slugs unique. */
  lemma UniqueSlugsAppend(s: seq<Post>, p: Post)
    requires UniqueSlugs(s) && !HasSlug(s, p.slug)
    ensures UniqueSlugs(s + [p])
  {
    forall i, j | 0 <= i < j < |s + [p]| ensures (s + [p])[i].slug != (s + [p])[j].slug {
      if j == |s| {
        assert (s + [p])[i] == s[i];
      }
    }
  }

  /** Reordering a collection keeps its slugs unique. */
  lemma UniqueSlugsPermutation(a: seq<Post>, b: seq<Post>)
    requires UniqueSlugs(a) && multiset(a) == multiset(b)
    ensures UniqueSlugs(b)
  {
    PermutationDistinct(a, b);
    forall i, j | 0 <= i < j < |b| ensures b[i].slug != b[j].slug {
      assert b[i] in multiset(a) && b[j] in multiset(a);
      var i' :| 0 <= i' < |a| && a[i'] == b[i];
      var j' :| 0 <= j' < |a| && a[j'] == b[j];
      assert i' != j';
    }
  }
}
