/**
 * The admin overview page: the listed posts filtered by category, the per-category counts on the
 * filter buttons, the order badge of tutorials, and the local list update after a delete.
 */
module AdminPage {
  import opened Options
  import opened Seqs
  import opened Posts
  import opened PostStore

  /** The post is in the blog category. */
  predicate InBlogCategory(t: Tagged) { t.post.category == Some(BlogCategory) }

  /** The post is in the tutorial category. */
  predicate InTutorialCategory(t: Tagged) { t.post.category == Some(TutorialCategory) }

  /** The posts the page shows under `filter`: `blog` and `tutorial` select a category, anything else shows all. */
  function FilterPosts(posts: seq<Tagged>, filter: string): (r: seq<Tagged>)
    ensures filter != "blog" && filter != "tutorial" ==> r == posts
    ensures |r| <= |posts|
  {
    if filter == "blog" then Filter(posts, InBlogCategory)
    else if filter == "tutorial" then Filter(posts, InTutorialCategory)
    else posts
  }

  /** The category filters keep exactly the posts of their category, in their order. */
  lemma FilterPostsMember(posts: seq<Tagged>, filter: string, t: Tagged)
    ensures filter == "blog" ==> (t in FilterPosts(posts, filter) <==> t in posts && InBlogCategory(t))
    ensures filter == "tutorial" ==> (t in FilterPosts(posts, filter) <==> t in posts && InTutorialCategory(t))
  {
    FilterMember(posts, InBlogCategory, t);
    FilterMember(posts, InTutorialCategory, t);
  }

  /** A category filter shows a sub-list of the posts: filtering a concatenation filters each part. */
  lemma FilterPostsConcat(a: seq<Tagged>, b: seq<Tagged>, filter: string)
    ensures FilterPosts(a + b, filter) == FilterPosts(a, filter) + FilterPosts(b, filter)
  {
    FilterConcat(a, b, InBlogCategory);
    FilterConcat(a, b, InTutorialCategory);
  }

  /** The counts on the three filter buttons. */
  datatype Counts = Counts(all: nat, blog: nat, tutorial: nat)

  /** The button counts: all posts, then the posts of each category. */
  function ButtonCounts(posts: seq<Tagged>): (c: Counts)
    ensures c.all == |FilterPosts(posts, "all")|
    ensures c.blog == |FilterPosts(posts, "blog")|
    ensures c.tutorial == |FilterPosts(posts, "tutorial")|
  {
    Counts(|posts|, |Filter(posts, InBlogCategory)|, |Filter(posts, InTutorialCategory)|)
  }

  /** No post is in both categories, so the two category counts add up to at most the total. */
  lemma CategoryCountsBounded(posts: seq<Tagged>)
    ensures ButtonCounts(posts).blog + ButtonCounts(posts).tutorial <= ButtonCounts(posts).all
  {
    assert BlogCategory[0] != TutorialCategory[0] || BlogCategory[2] != TutorialCategory[2];
    FilterDisjointLengths(posts, InBlogCategory, InTutorialCategory);
  }

  /** The post does not have slug `slug`. */
  function SlugIsNot(slug: string): Tagged -> bool {
    (t: Tagged) => t.post.slug != slug
  }

  /** The local list after the post with `slug` was deleted on the server: every post with that slug removed. */
  function RemoveSlug(posts: seq<Tagged>, slug: string): (r: seq<Tagged>)
    ensures |r| <= |posts|
    ensures forall i | 0 <= i < |r| :: r[i].post.slug != slug
  {
    Filter(posts, SlugIsNot(slug))
  }

  /** A post stays in the list exactly when it was there and has another slug; the order is kept. */
  lemma RemoveSlugMember(posts: seq<Tagged>, slug: string, t: Tagged)
    ensures t in RemoveSlug(posts, slug) <==> t in posts && t.post.slug != slug
  {
    FilterMember(posts, SlugIsNot(slug), t);
  }

  /** Removing a slug no post has changes nothing. */
  lemma RemoveAbsentSlug(posts: seq<Tagged>, slug: string)
    requires forall i | 0 <= i < |posts| :: posts[i].post.slug != slug
    ensures RemoveSlug(posts, slug) == posts
  {
    FilterKeepsAll(posts, SlugIsNot(slug));
  }

  /** Removing from a concatenation removes from each part, so the remaining posts keep their order. */
  lemma RemoveSlugConcat(a: seq<Tagged>, b: seq<Tagged>, slug: string)
    ensures RemoveSlug(a + b, slug) == RemoveSlug(a, slug) + RemoveSlug(b, slug)
  {
    FilterConcat(a, b, SlugIsNot(slug));
  }

  /** With unique slugs, deleting one post's slug removes exactly that one post. */
  lemma RemoveUniqueSlug(posts: seq<Tagged>, i: nat)
    requires i < |posts|
    requires forall j, k | 0 <= j < k < |posts| :: posts[j].post.slug != posts[k].post.slug
    ensures RemoveSlug(posts, posts[i].post.slug) == posts[..i] + posts[i + 1..]
  {
    var slug := posts[i].post.slug;
    var a, x, c := posts[..i], [posts[i]], posts[i + 1..];
    assert posts == a + (x + c);
    forall j | 0 <= j < |a| ensures a[j].post.slug != slug {
      assert a[j] == posts[j];
    }
    forall j | 0 <= j < |c| ensures c[j].post.slug != slug {
      assert c[j] == posts[i + 1 + j];
    }
    RemoveSlugConcat(a, x + c, slug);
    RemoveSlugConcat(x, c, slug);
    RemoveAbsentSlug(a, slug);
    RemoveAbsentSlug(c, slug);
    FilterKeepsNone(x, SlugIsNot(slug));
    assert RemoveSlug(x, slug) == [];
    assert [] + c == c;
  }

  /** A post shows the lesson badge when it is in the tutorial category and has a non-zero order. */
  predicate ShowOrderBadge(p: Post) {
    p.category == Some(TutorialCategory) && p.order.Some? && p.order.value != 0
  }

  /**
   * A post created through the API shows the badge exactly when the request gave a non-zero order
   * and either named the tutorial category or named none and was routed to the tutorials; a
   * tutorial sent with another category, or without an order, shows none.
   */
  lemma CreatedPostBadge(b: CreateBody, today: string)
    requires HasRequiredFields(b)
    ensures ShowOrderBadge(PostOf(b, today))
            <==> && (b.category == Some(TutorialCategory) || (!Truthy(b.category) && RoutesToTutorial(b)))
                 && b.order.Some? && b.order.value != 0
  {
  }
}
