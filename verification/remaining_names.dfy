/**
 * The pass that gives the image files and folders still named in Chinese English names: a name
 * that is a key of the table is replaced by its value; any other name has every key replaced by
 * its value and is then cleaned up (parentheses deleted, runs of blanks, `-` and `_` turned into
 * one dash, dashes at either end removed). An item is renamed only when its name changes.
 */
module RemainingNames {
  import opened Options
  import opened Seqs
  import opened Strings
  import opened Mappings

  /** The table of whole names and words, in the script's order. */
  const NameTable: Table := [
    ("各种胶片单反相机（附件1）", "various-film-slr-cameras-attachment1"),
    ("旁轴和傻瓜胶片相机（附件2）", "rangefinder-point-shoot-cameras-attachment2"),
    ("湿板摄影法的操作过程（附件3）", "wet-plate-photography-process-attachment3"),
    ("数码相机", "digital-cameras"),
    ("湿版摄影法.mp4", "wet-plate-photography.mp4"),
    ("Screenshot_20200202-213218.webp", "screenshot-20200202-213218.webp"),
    ("各种", "various"),
    ("胶片", "film"),
    ("单反", "slr"),
    ("相机", "camera"),
    ("附件", "attachment"),
    ("旁轴", "rangefinder"),
    ("傻瓜", "point-shoot"),
    ("湿板", "wet-plate"),
    ("摄影法", "photography"),
    ("操作", "operation"),
    ("过程", "process"),
    ("数码", "digital"),
    ("湿版", "wet-plate")
  ]

  /** Not one of the parentheses `（）()` the cleanup deletes. */
  predicate NotParen(c: char) {
    c != '（' && c != '）' && c != '(' && c != ')'
  }

  /** The characters whose runs become one dash: `[\s\-_]` (Python `\s`). */
  predicate NameSep(c: char) {
    IsPySpace(c) || c == '-' || c == '_'
  }

  /** The cleanup applied after the word replacements. */
  function Cleanup(s: string): (r: string)
    ensures DashTidy(r)
  {
    CollapsedCleanShape(s);
    StripDashesTidies(CollapseRuns(Filter(s, NotParen), NameSep));
    Strip(CollapseRuns(Filter(s, NotParen), NameSep), IsDash)
  }

  /** The new name of a file or folder. */
  function Sanitize(name: string, table: Table): (r: string)
    ensures IsKey(table, name) ==> Some(r) == Lookup(table, name)
    ensures !IsKey(table, name) ==> r == Cleanup(ReplaceEach(name, table))
  {
    match Lookup(table, name)
    case Some(v) => v
    case None =>
      ReplaceEachPresentSame(name, table);
      Cleanup(ReplaceEachPresent(name, table))
  }

  /** The keys of the script's table are distinct, so a whole name maps to its own entry. */
  lemma NameTableKeysUnique()
    ensures forall a, b | 0 <= a < b < |NameTable| :: NameTable[a].0 != NameTable[b].0
  {
  }

  /** A name that is a key of the table becomes that entry's value, with no further cleanup. */
  lemma SanitizeWholeName(i: nat)
    requires i < |NameTable|
    ensures Sanitize(NameTable[i].0, NameTable) == NameTable[i].1
  {
    NameTableKeysUnique();
    LookupUnique(NameTable, i);
  }

  /** A character a cleaned-up name may hold: no parenthesis, no blank, no `_`. */
  predicate CleanChar(c: char) {
    NotParen(c) && !IsPySpace(c) && c != '_'
  }

  /** Before the dashes are stripped, the name already consists of clean characters and has no `--`. */
  lemma CollapsedCleanShape(s: string)
    ensures var c := CollapseRuns(Filter(s, NotParen), NameSep);
      (forall i | 0 <= i < |c| :: CleanChar(c[i])) && NoDoubleDash(c)
  {
    var kept := Filter(s, NotParen);
    CollapseRunsPreserves(kept, NameSep, NotParen);
  }

  /** A cleaned-up name has no parentheses, no blanks or `_`, no `--` and no dash at either end. */
  lemma CleanupShape(s: string)
    ensures var r := Cleanup(s);
      (forall i | 0 <= i < |r| :: CleanChar(r[i])) && DashTidy(r)
  {
    var c := CollapseRuns(Filter(s, NotParen), NameSep);
    CollapsedCleanShape(s);
    StripDashesTidies(c);
    var a := StripStart(c, IsDash);
    var r := Cleanup(s);
    forall i | 0 <= i < |r| ensures CleanChar(r[i]) {
      assert r[i] == c[a + i];
    }
  }

  /** Any name that is not a key of the table comes out in that shape. */
  lemma SanitizeShape(name: string, table: Table)
    requires !IsKey(table, name)
    ensures var r := Sanitize(name, table);
      (forall i | 0 <= i < |r| :: CleanChar(r[i])) && DashTidy(r)
  {
    CleanupShape(ReplaceEach(name, table));
  }

  /** A rename of one item: its old and new name. */
  datatype Rename = Rename(before: string, after: string)

  /** The renames of a list of names under the naming `f`: only the names it changes, in their order. */
  function PlanWith(names: seq<string>, f: string -> string): (r: seq<Rename>)
    ensures |r| <= |names|
    ensures forall i | 0 <= i < |r| :: r[i].before != r[i].after && r[i].after == f(r[i].before)
    decreases |names|
  {
    if |names| == 0 then []
    else
      var n := f(names[0]);
      (if n != names[0] then [Rename(names[0], n)] else []) + PlanWith(names[1..], f)
  }

  /** The naming of the script. */
  function SanitizeWith(table: Table): string -> string {
    (n: string) => Sanitize(n, table)
  }

  /** The renames of a list of names: only the names that sanitizing changes, in their order. */
  function RenamePlan(names: seq<string>, table: Table): (r: seq<Rename>)
    ensures |r| <= |names|
    ensures forall i | 0 <= i < |r| :: r[i].before != r[i].after && r[i].after == Sanitize(r[i].before, table)
  {
    PlanWith(names, SanitizeWith(table))
  }

  /** Some rename of `plan` starts from `name`. */
  predicate Renames(plan: seq<Rename>, name: string) {
    exists i | 0 <= i < |plan| :: plan[i].before == name
  }

  lemma RenamesCons(x: Rename, rest: seq<Rename>, name: string)
    ensures Renames([x] + rest, name) <==> x.before == name || Renames(rest, name)
  {
    var plan := [x] + rest;
    if Renames(rest, name) {
      var i :| 0 <= i < |rest| && rest[i].before == name;
      assert plan[i + 1] == rest[i];
    }
    if Renames(plan, name) && x.before != name {
      var i :| 0 <= i < |plan| && plan[i].before == name;
      assert rest[i - 1] == plan[i];
    }
    if x.before == name {
      assert plan[0] == x;
    }
  }

  /** Under any naming, a name is renamed exactly when it is listed and the naming changes it. */
  lemma {:induction false} PlanWithMember(names: seq<string>, f: string -> string, name: string)
    ensures Renames(PlanWith(names, f), name) <==> name in names && f(name) != name
    decreases |names|
  {
    if |names| > 0 {
      PlanWithMember(names[1..], f, name);
      var rest := PlanWith(names[1..], f);
      var n := f(names[0]);
      if n != names[0] {
        assert PlanWith(names, f) == [Rename(names[0], n)] + rest;
        RenamesCons(Rename(names[0], n), rest, name);
      } else {
        assert PlanWith(names, f) == rest;
      }
      assert name in names <==> name == names[0] || name in names[1..] by {
        assert names == [names[0]] + names[1..];
      }
    }
  }

  /** A name is renamed exactly when it is listed and sanitizing changes it. */
  lemma RenamePlanMember(names: seq<string>, table: Table, name: string)
    ensures Renames(RenamePlan(names, table), name) <==> name in names && Sanitize(name, table) != name
  {
    PlanWithMember(names, SanitizeWith(table), name);
  }
}
