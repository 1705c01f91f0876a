/**
 * The tutorial-folder rename: the eight lesson folders get English names, and the tutorial data
 * is updated so that each image URL naming one of those folders names the new folder instead.
 */
module FolderRename {
  import opened Options
  import opened Strings
  import opened Mappings
  import opened Posts

  /** The lesson folders and their new names, in the script's order. */
  const FolderTable: Table := [
    ("1.第一课  摄影简史、相机的发展及现代摄影的范畴", "lesson-01-photography-history"),
    ("2.第二课  相机、附件及各种功能设置", "lesson-02-camera-settings"),
    ("3.第三课   摄影曝光原理（一）", "lesson-03-exposure-theory-1"),
    ("4..第四课  摄影曝光原理（二）", "lesson-04-exposure-theory-2"),
    ("5.第五课  摄影构图（一）", "lesson-05-composition-1"),
    ("6.第六课  摄影构图（二）", "lesson-06-composition-2"),
    ("7.第七课  摄影用光", "lesson-07-lighting"),
    ("8.第八课  摄影色彩的运用", "lesson-08-color-theory")
  ]

  /** The images list with the first-match rewrite applied to each entry. */
  function RewriteAll(us: seq<string>, table: Table): (r: seq<string>)
    ensures |r| == |us|
    ensures forall i | 0 <= i < |us| :: r[i] == FirstMatchRewrite(us[i], table)
  {
    seq(|us|, i requires 0 <= i < |us| => FirstMatchRewrite(us[i], table))
  }

  /** A tutorial with its cover and image URLs rewritten; every other field is kept. */
  function UpdateTutorial(p: Post, table: Table): (r: Post)
    ensures r.featuredImageUrl == FirstMatchRewrite(p.featuredImageUrl, table)
    ensures r.images.Some? <==> p.images.Some?
    ensures p.images.Some? ==> r.images.value == RewriteAll(p.images.value, table)
    ensures r.(featuredImageUrl := p.featuredImageUrl, images := p.images) == p
  {
    var images := match p.images
      case None => None
      case Some(us) => Some(RewriteAll(us, table));
    p.(featuredImageUrl := FirstMatchRewrite(p.featuredImageUrl, table), images := images)
  }

  /** The tutorials after the update: each one rewritten, none added, dropped or moved. */
  function UpdateTutorials(tutorials: seq<Post>, table: Table): (r: seq<Post>)
    ensures |r| == |tutorials|
    ensures forall i | 0 <= i < |tutorials| :: r[i] == UpdateTutorial(tutorials[i], table)
  {
    seq(|tutorials|, i requires 0 <= i < |tutorials| => UpdateTutorial(tutorials[i], table))
  }

  /** No folder name of the table occurs in `u`. */
  predicate NamesNoFolder(u: string, table: Table) {
    forall j | 0 <= j < |table| :: !Contains(u, table[j].0)
  }

  /** A tutorial none of whose URLs names a folder of the table is left as it is. */
  lemma UpdateTutorialUntouched(p: Post, table: Table)
    requires NamesNoFolder(p.featuredImageUrl, table)
    requires p.images.Some? ==> forall i | 0 <= i < |p.images.value| :: NamesNoFolder(p.images.value[i], table)
    ensures UpdateTutorial(p, table) == p
  {
    if p.images.Some? {
      assert RewriteAll(p.images.value, table) == p.images.value;
    }
  }

  /** A URL naming the `i`-th folder, and none before it, has every occurrence of that name replaced. */
  lemma RewriteFirstFolder(u: string, table: Table, i: nat)
    requires i < |table| && Contains(u, table[i].0)
    requires forall j | 0 <= j < i :: !Contains(u, table[j].0)
    ensures FirstMatchRewrite(u, table) == ReplaceAll(u, table[i].0, table[i].1)
  {
  }

  /** Every lesson folder name contains a CJK character. */
  lemma FolderTableKeysCjk()
    ensures forall i | 0 <= i < |FolderTable| :: HasCjk(FolderTable[i].0)
  {
    forall i | 0 <= i < |FolderTable| ensures HasCjk(FolderTable[i].0) {
      var k := if i == 3 then 3 else 2;
      assert IsCjk(FolderTable[i].0[k]);
    }
  }

  /** A URL without CJK characters names no lesson folder, so the script leaves it as it is. */
  lemma FolderRewriteSkipsPlainUrl(u: string)
    requires !HasCjk(u)
    ensures FirstMatchRewrite(u, FolderTable) == u
  {
    FolderTableKeysCjk();
    forall j | 0 <= j < |FolderTable| ensures !Contains(u, FolderTable[j].0) {
      CjkWordAbsent(u, FolderTable[j].0);
    }
  }

  /** A tutorial whose cover and image URLs have no CJK characters is left as it is by the script. */
  lemma PlainTutorialUntouched(p: Post)
    requires !HasCjk(p.featuredImageUrl)
    requires p.images.Some? ==> forall i | 0 <= i < |p.images.value| :: !HasCjk(p.images.value[i])
    ensures UpdateTutorial(p, FolderTable) == p
  {
    FolderRewriteSkipsPlainUrl(p.featuredImageUrl);
    if p.images.Some? {
      forall i | 0 <= i < |p.images.value| ensures FirstMatchRewrite(p.images.value[i], FolderTable) == p.images.value[i] {
        FolderRewriteSkipsPlainUrl(p.images.value[i]);
      }
      assert RewriteAll(p.images.value, FolderTable) == p.images.value;
    }
  }
}
