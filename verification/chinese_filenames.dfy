/**
 * The script that renames the gallery and tutorial images whose file names contain Chinese
 * characters: a new English file name is built from the old one, a `-<k>` suffix avoids names
 * already taken, and the JSON data files are then pointed at the new URLs.
 *
 * Paths are kept relative to the `public` directory, so a path `p` is served at the URL `"/" + p`.
 */
module ChineseFilenames {
  import opened Options
  import opened Strings
  import opened Mappings
  import opened Posts

  /**
   * The word table of `create_english_filename`, in dictionary order (its one repeated key listed
   * once), written as the script's groups; the last group is split in parts of sixteen so that
   * facts about its keys can be checked a part at a time.
   */
  const WordTable: Table :=
    LessonWords + PhotographyWords + TechniqueWords + CompositionWords + PlaceWords + CultureWords + OtherWords

  /** Words about lesson numbers. */
  const LessonWords: Table := [
    ("第一课", "lesson-01"),
    ("第二课", "lesson-02"),
    ("第三课", "lesson-03"),
    ("第四课", "lesson-04"),
    ("第五课", "lesson-05"),
    ("第六课", "lesson-06"),
    ("第七课", "lesson-07"),
    ("第八课", "lesson-08")
  ]

  /** Words about photography. */
  const PhotographyWords: Table := [
    ("摄影", "photography"),
    ("相机", "camera"),
    ("镜头", "lens"),
    ("构图", "composition"),
    ("曝光", "exposure"),
    ("用光", "lighting"),
    ("色彩", "color"),
    ("作品", "work"),
    ("效果", "effect"),
    ("拍摄", "shooting")
  ]

  /** Words about technique. */
  const TechniqueWords: Table := [
    ("数码", "digital"),
    ("单反", "slr"),
    ("微距", "macro"),
    ("鱼眼", "fisheye"),
    ("广角", "wide-angle"),
    ("长焦", "telephoto"),
    ("移轴", "tilt-shift"),
    ("折返", "reflex"),
    ("光圈", "aperture"),
    ("快门", "shutter"),
    ("感光度", "iso"),
    ("景深", "depth-of-field"),
    ("对焦", "focus"),
    ("测光", "metering"),
    ("白平衡", "white-balance")
  ]

  /** Words about composition. */
  const CompositionWords: Table := [
    ("三分法", "rule-of-thirds"),
    ("对角线", "diagonal"),
    ("三角形", "triangle"),
    ("框式", "frame"),
    ("对称", "symmetry"),
    ("引导线", "leading-lines"),
    ("居中", "center"),
    ("透视", "perspective"),
    ("线条", "lines"),
    ("虚实", "depth"),
    ("明暗", "light-dark"),
    ("大小", "size"),
    ("奇数", "odd-number")
  ]

  /** Words about places and scenes. */
  const PlaceWords: Table := [
    ("博贺港", "bohe-port"),
    ("水东湾", "shuidong-bay"),
    ("梅城", "meicheng"),
    ("彩虹", "rainbow"),
    ("晚霞", "sunset"),
    ("日出", "sunrise"),
    ("海边", "seaside"),
    ("渔夫", "fisherman"),
    ("渔港", "fishing-port"),
    ("海湾", "bay"),
    ("海滩", "beach"),
    ("白鹭", "egret"),
    ("觅食", "foraging")
  ]

  /** Words about culture. */
  const CultureWords: Table := [
    ("舞狮", "lion-dance"),
    ("开渔节", "fishing-festival"),
    ("庙", "temple"),
    ("妆容", "makeup"),
    ("旦角", "female-role"),
    ("巡游", "parade")
  ]

  /** Other words, part 1. */
  const OtherWords1: Table := [
    ("世界", "world"),
    ("第一", "first"),
    ("照片", "photo"),
    ("原理", "principle"),
    ("基础", "basic"),
    ("发展", "development"),
    ("历史", "history"),
    ("现代", "modern"),
    ("范畴", "scope"),
    ("附件", "accessories"),
    ("设置", "settings"),
    ("功能", "function"),
    ("各种", "various"),
    ("种类", "types"),
    ("传感器", "sensor"),
    ("尺寸", "size")
  ]

  /** Other words, part 2. */
  const OtherWords2: Table := [
    ("机型", "model"),
    ("论述", "theory"),
    ("示意图", "diagram"),
    ("高速", "high-speed"),
    ("慢速", "slow-speed"),
    ("多重", "multiple"),
    ("追踪", "tracking"),
    ("对比", "contrast"),
    ("正常", "normal"),
    ("速度", "speed"),
    ("放大", "enlarged"),
    ("图例", "example"),
    ("模式", "mode"),
    ("内容", "content"),
    ("说明", "description"),
    ("立", "immediate")
  ]

  /** Other words, part 3. */
  const OtherWords3: Table := [
    ("不正常", "abnormal"),
    ("补偿", "compensation"),
    ("白加", "white-plus"),
    ("黑减", "black-minus"),
    ("清晰", "clear"),
    ("区域", "area"),
    ("关系", "relationship"),
    ("适合", "suitable"),
    ("对象", "subject"),
    ("单次", "single"),
    ("伺服", "servo"),
    ("连续", "continuous"),
    ("手动", "manual"),
    ("复杂", "complex"),
    ("环境", "environment"),
    ("位置", "position")
  ]

  /** Other words, part 4. */
  const OtherWords4: Table := [
    ("认识", "understanding"),
    ("太阳", "sun"),
    ("天空", "sky"),
    ("地景", "landscape"),
    ("面部", "face"),
    ("平价", "average"),
    ("中央", "center"),
    ("重点", "weighted"),
    ("点", "spot"),
    ("解说", "explanation"),
    ("色温", "color-temperature"),
    ("表", "chart"),
    ("两种", "two-types"),
    ("原图", "original"),
    ("睛天", "sunny"),
    ("阴天", "cloudy")
  ]

  /** Other words, part 5. */
  const OtherWords5: Table := [
    ("技巧", "techniques"),
    ("理论", "theory"),
    ("形式", "form"),
    ("九宫格", "grid"),
    ("花絮", "behind-scenes"),
    ("全景", "panorama"),
    ("人像", "portrait"),
    ("中景", "medium-shot"),
    ("近景", "close-up"),
    ("特写", "close-up-detail"),
    ("俯拍", "overhead"),
    ("平拍", "eye-level"),
    ("仰拍", "low-angle"),
    ("横", "horizontal"),
    ("竖", "vertical"),
    ("画幅", "format")
  ]

  /** Other words, part 6. */
  const OtherWords6: Table := [
    ("方", "square"),
    ("长轴", "long-axis"),
    ("注意事项", "notes"),
    ("案例", "case-study"),
    ("资料", "material"),
    ("艺术", "art"),
    ("要素", "elements"),
    ("强度", "intensity"),
    ("质量", "quality"),
    ("方向", "direction"),
    ("顺光", "front-light"),
    ("侧光", "side-light"),
    ("逆光", "back-light"),
    ("侧逆光", "side-back-light"),
    ("冷暖", "warm-cool"),
    ("室内", "indoor")
  ]

  /** Other words, part 7. */
  const OtherWords7: Table := [
    ("布光", "lighting-setup"),
    ("伦勃朗光", "rembrandt-light"),
    ("蝴蝶光", "butterfly-light"),
    ("三原色", "primary-colors"),
    ("色环", "color-wheel"),
    ("色调", "tone"),
    ("平衡", "balance"),
    ("互补", "complementary"),
    ("有色彩", "colored"),
    ("无色彩", "colorless"),
    ("花色", "patterned"),
    ("纯色", "solid-color"),
    ("面积", "area"),
    ("聚焦", "focus"),
    ("法则", "rule"),
    ("同频", "same-frequency")
  ]

  /** Other words, part 8. */
  const OtherWords8: Table := [
    ("六大", "six-major"),
    ("基本", "basic"),
    ("色相", "hue"),
    ("属性", "properties"),
    ("意义", "meaning"),
    ("七大", "seven-major"),
    ("正面", "positive"),
    ("负面", "negative"),
    ("感受", "feeling"),
    ("纯", "pure"),
    ("明", "bright"),
    ("淡", "light"),
    ("灰", "gray"),
    ("暗", "dark"),
    ("白", "white"),
    ("黑", "black")
  ]

  /** The script's group of other words. */
  const OtherWords: Table :=
    OtherWords1 + OtherWords2 + OtherWords3 + OtherWords4 + OtherWords5 + OtherWords6 + OtherWords7 + OtherWords8

  // ---------------------------------------------------------------------------
  // Splitting off the extension (POSIX `os.path.splitext`)
  // ---------------------------------------------------------------------------

  /** The index of the last `c` in `s`, or -1 (Python `str.rfind`). */
  function RFind(s: string, c: char): (r: int)
    ensures -1 <= r < |s|
    ensures r >= 0 ==> s[r] == c
    ensures forall i | r < i < |s| :: s[i] != c
    decreases |s|
  {
    if |s| == 0 then -1
    else if s[|s| - 1] == c then |s| - 1
    else RFind(s[..|s| - 1], c)
  }

  /** The three facts of `RFind`'s contract determine it. */
  lemma RFindIs(s: string, c: char, r: int)
    requires -1 <= r < |s|
    requires r >= 0 ==> s[r] == c
    requires forall i | r < i < |s| :: s[i] != c
    ensures RFind(s, c) == r
  {
  }

  /** Appending a string without `c` leaves the last `c` where it was. */
  lemma RFindAppend(a: string, b: string, c: char)
    requires forall i | 0 <= i < |b| :: b[i] != c
    ensures RFind(a + b, c) == RFind(a, c)
  {
    var s := a + b;
    var r := RFind(a, c);
    forall i | r < i < |s| ensures s[i] != c {
      if i < |a| {
        assert s[i] == a[i];
      } else {
        assert s[i] == b[i - |a|];
      }
    }
    if r >= 0 {
      assert s[r] == a[r];
    }
    RFindIs(s, c, r);
  }

  /** Prefixing a string that contains `c` shifts its last `c` by the prefix length. */
  lemma RFindInSuffix(a: string, b: string, c: char)
    requires RFind(b, c) >= 0
    ensures RFind(a + b, c) == |a| + RFind(b, c)
  {
    var s := a + b;
    var r := RFind(b, c);
    forall i | |a| + r < i < |s| ensures s[i] != c {
      assert s[i] == b[i - |a|];
    }
    assert s[|a| + r] == b[r];
    RFindIs(s, c, |a| + r);
  }

  /** Whether a stretch of `b` holds a non-dot does not depend on what precedes `b`. */
  lemma HasNonDotShift(a: string, b: string, lo: nat, hi: nat)
    requires lo <= hi <= |b|
    ensures HasNonDot(a + b, |a| + lo, |a| + hi) <==> HasNonDot(b, lo, hi)
  {
    var s := a + b;
    if HasNonDot(b, lo, hi) {
      var i :| lo <= i < hi && b[i] != '.';
      assert s[|a| + i] == b[i];
    }
    if HasNonDot(s, |a| + lo, |a| + hi) {
      var i :| |a| + lo <= i < |a| + hi && s[i] != '.';
      assert b[i - |a|] == s[i];
    }
  }

  /** Whether a stretch of `a` holds a non-dot does not depend on what follows `a`. */
  lemma HasNonDotPrefix(a: string, b: string, lo: nat, hi: nat)
    requires lo <= hi <= |a|
    ensures HasNonDot(a + b, lo, hi) <==> HasNonDot(a, lo, hi)
  {
    var s := a + b;
    if HasNonDot(a, lo, hi) {
      var i :| lo <= i < hi && a[i] != '.';
      assert s[i] == a[i];
    }
    if HasNonDot(s, lo, hi) {
      var i :| lo <= i < hi && s[i] != '.';
      assert a[i] == s[i];
    }
  }

  predicate NoSlash(s: string) { forall i | 0 <= i < |s| :: s[i] != '/' }

  /** Some character of `s[lo..hi]` is not a dot. */
  predicate HasNonDot(s: string, lo: int, hi: int)
    requires 0 <= lo && hi <= |s|
  {
    exists i | lo <= i < hi :: s[i] != '.'
  }

  /** An extension as `splitext` returns it: a dot followed by neither dots nor slashes. */
  predicate IsExtension(ext: string) {
    |ext| > 0 && ext[0] == '.' && forall i | 1 <= i < |ext| :: ext[i] != '.' && ext[i] != '/'
  }

  /**
   * `os.path.splitext`: the extension starts at the last dot, provided that dot lies in the
   * last path component and is preceded there by something other than dots.
   */
  function SplitExt(p: string): (r: (string, string))
    ensures r.0 + r.1 == p
    ensures r.1 == [] || IsExtension(r.1)
  {
    var sep := RFind(p, '/');
    var dot := RFind(p, '.');
    if dot > sep && HasNonDot(p, sep + 1, dot) then (p[..dot], p[dot..]) else (p, [])
  }

  /** An extension's only dot is its first character, and it has no slash. */
  lemma ExtensionDots(ext: string)
    requires IsExtension(ext)
    ensures RFind(ext, '.') == 0 && RFind(ext, '/') == -1
  {
    RFindIs(ext, '.', 0);
    RFindIs(ext, '/', -1);
  }

  /** Where the last slash and the last dot lie decides the split. */
  lemma SplitExtAt(p: string, sep: int, dot: int)
    requires RFind(p, '/') == sep && RFind(p, '.') == dot
    ensures dot > sep && HasNonDot(p, sep + 1, dot) ==> SplitExt(p) == (p[..dot], p[dot..])
    ensures !(dot > sep && HasNonDot(p, sep + 1, dot)) ==> SplitExt(p) == (p, [])
  {
  }

  /** Splitting a stem followed by an extension gives the two back. */
  lemma SplitExtOf(stem: string, ext: string)
    requires IsExtension(ext)
    requires HasNonDot(stem, RFind(stem, '/') + 1, |stem|)
    ensures SplitExt(stem + ext) == (stem, ext)
  {
    var p := stem + ext;
    var sep := RFind(stem, '/');
    ExtensionDots(ext);
    RFindAppend(stem, ext, '/');
    RFindInSuffix(stem, ext, '.');
    HasNonDotPrefix(stem, ext, sep + 1, |stem|);
    SplitExtAt(p, sep, |stem|);
    assert p[..|stem|] == stem;
    assert p[|stem|..] == ext;
  }

  /** The extension of a path is the extension of its last component. */
  lemma SplitExtInDir(dir: string, f: string)
    requires NoSlash(f)
    ensures SplitExt(dir + "/" + f) == (dir + "/" + SplitExt(f).0, SplitExt(f).1)
  {
    var d := dir + "/";
    var p := d + f;
    var n := |d|;
    RFindAppend(d, f, '/');
    RFindIs(d, '/', |dir|);
    RFindIs(f, '/', -1);
    var dot := RFind(f, '.');
    SplitExtAt(f, -1, dot);
    if dot >= 0 {
      RFindInSuffix(d, f, '.');
      HasNonDotShift(d, f, 0, dot);
      assert p[..n + dot] == d + f[..dot];
      assert p[n + dot..] == f[dot..];
      SplitExtAt(p, |dir|, n + dot);
    } else {
      RFindAppend(d, f, '.');
      SplitExtAt(p, |dir|, RFind(d, '.'));
    }
  }

  // ---------------------------------------------------------------------------
  // The English file name
  // ---------------------------------------------------------------------------

  /** The characters `[\w\-.]` the cleanup keeps; `isWord` is Python's Unicode `\w`. */
  function StemKeep(isWord: char -> bool): char -> bool {
    (c: char) => isWord(c) || c == '-' || c == '.'
  }

  /** Every other character becomes `-`, runs of `-` become one, and dashes at either end go. */
  function CleanStem(s: string, isWord: char -> bool): (r: string)
    ensures DashTidy(r)
  {
    CollapsedStemShape(s, isWord);
    StripDashesTidies(CollapseRuns(DashOutside(s, StemKeep(isWord)), IsDash));
    Strip(CollapseRuns(DashOutside(s, StemKeep(isWord)), IsDash), IsDash)
  }

  /** The name used when the cleaned stem is empty or still Chinese; `h` is Python's `hash` of the stem. */
  function FallbackName(h: int): string {
    "image-" + Dec(h % 10000)
  }

  /** Every key of `table` is a non-empty word starting with a CJK character, as in the word table. */
  predicate KeysStartCjk(table: Table) {
    forall i | 0 <= i < |table| :: table[i].0 != [] && IsCjk(table[i].0[0])
  }

  /** With such a table, a stem without CJK characters passes the word replacements unchanged; only the cleanup applies to it. */
  lemma CjkTableSkipsPlainStem(s: string, table: Table)
    requires KeysStartCjk(table) && !HasCjk(s)
    ensures ReplaceEach(s, table) == s
  {
    forall i | 0 <= i < |table| ensures table[i].0 != [] && !Contains(s, table[i].0) {
      assert IsCjk(table[i].0[0]);
      CjkWordAbsent(s, table[i].0);
    }
    ReplaceEachNoKey(s, table);
  }

  /** Two tables whose keys start with CJK characters make one such table. */
  lemma KeysStartCjkConcat(a: Table, b: Table)
    requires KeysStartCjk(a) && KeysStartCjk(b)
    ensures KeysStartCjk(a + b)
  {
    forall i | 0 <= i < |a + b| ensures (a + b)[i].0 != [] && IsCjk((a + b)[i].0[0]) {
      if i >= |a| {
        assert (a + b)[i] == b[i - |a|];
      }
    }
  }

  lemma LessonWordsStartCjk() ensures KeysStartCjk(LessonWords) {}
  lemma PhotographyWordsStartCjk() ensures KeysStartCjk(PhotographyWords) {}
  lemma TechniqueWordsStartCjk() ensures KeysStartCjk(TechniqueWords) {}
  lemma CompositionWordsStartCjk() ensures KeysStartCjk(CompositionWords) {}
  lemma PlaceWordsStartCjk() ensures KeysStartCjk(PlaceWords) {}
  lemma CultureWordsStartCjk() ensures KeysStartCjk(CultureWords) {}
  lemma OtherWords1StartCjk() ensures KeysStartCjk(OtherWords1) {}
  lemma OtherWords2StartCjk() ensures KeysStartCjk(OtherWords2) {}
  lemma OtherWords3StartCjk() ensures KeysStartCjk(OtherWords3) {}
  lemma OtherWords4StartCjk() ensures KeysStartCjk(OtherWords4) {}
  lemma OtherWords5StartCjk() ensures KeysStartCjk(OtherWords5) {}
  lemma OtherWords6StartCjk() ensures KeysStartCjk(OtherWords6) {}
  lemma OtherWords7StartCjk() ensures KeysStartCjk(OtherWords7) {}
  lemma OtherWords8StartCjk() ensures KeysStartCjk(OtherWords8) {}

  /** Every key of the other words starts with a CJK character. */
  lemma OtherWordsStartCjk()
    ensures KeysStartCjk(OtherWords)
  {
    OtherWords1StartCjk();
    OtherWords2StartCjk();
    KeysStartCjkConcat(OtherWords1, OtherWords2);
    OtherWords3StartCjk();
    KeysStartCjkConcat(OtherWords1 + OtherWords2, OtherWords3);
    OtherWords4StartCjk();
    KeysStartCjkConcat(OtherWords1 + OtherWords2 + OtherWords3, OtherWords4);
    OtherWords5StartCjk();
    KeysStartCjkConcat(OtherWords1 + OtherWords2 + OtherWords3 + OtherWords4, OtherWords5);
    OtherWords6StartCjk();
    KeysStartCjkConcat(OtherWords1 + OtherWords2 + OtherWords3 + OtherWords4 + OtherWords5, OtherWords6);
    OtherWords7StartCjk();
    KeysStartCjkConcat(OtherWords1 + OtherWords2 + OtherWords3 + OtherWords4 + OtherWords5 + OtherWords6, OtherWords7);
    OtherWords8StartCjk();
    KeysStartCjkConcat(OtherWords1 + OtherWords2 + OtherWords3 + OtherWords4 + OtherWords5 + OtherWords6 + OtherWords7, OtherWords8);
  }

  /** Every key of the script's word table starts with a CJK character. */
  lemma WordTableKeysStartCjk()
    ensures KeysStartCjk(WordTable)
  {
    OtherWordsStartCjk();
    LessonWordsStartCjk();
    PhotographyWordsStartCjk();
    KeysStartCjkConcat(LessonWords, PhotographyWords);
    TechniqueWordsStartCjk();
    KeysStartCjkConcat(LessonWords + PhotographyWords, TechniqueWords);
    CompositionWordsStartCjk();
    KeysStartCjkConcat(LessonWords + PhotographyWords + TechniqueWords, CompositionWords);
    PlaceWordsStartCjk();
    KeysStartCjkConcat(LessonWords + PhotographyWords + TechniqueWords + CompositionWords, PlaceWords);
    CultureWordsStartCjk();
    KeysStartCjkConcat(LessonWords + PhotographyWords + TechniqueWords + CompositionWords + PlaceWords, CultureWords);
    KeysStartCjkConcat(LessonWords + PhotographyWords + TechniqueWords + CompositionWords + PlaceWords + CultureWords, OtherWords);
  }

  /** The script's word table leaves a stem without CJK characters as it is. */
  lemma WordTableSkipsPlainStem(s: string)
    requires !HasCjk(s)
    ensures ReplaceEach(s, WordTable) == s
  {
    WordTableKeysStartCjk();
    CjkTableSkipsPlainStem(s, WordTable);
  }

  /** A usable cleaned stem: non-empty and free of CJK characters. */
  predicate Usable(s: string) {
    s != [] && !HasCjk(s)
  }

  /** The new name of a file: its stem with every table word replaced and cleaned up, then its extension. */
  function EnglishFilename(name: string, table: Table, isWord: char -> bool, h: int): (r: string)
    ensures var ext := SplitExt(name).1;
      && EndsWith(r, ext)
      && var e := CleanStem(ReplaceEach(SplitExt(name).0, table), isWord);
         r[..|r| - |ext|] == if Usable(e) then e else FallbackName(h)
  {
    var (stem, ext) := SplitExt(name);
    var e := CleanStem(ReplaceEach(stem, table), isWord);
    var n := if Usable(e) then e else FallbackName(h);
    assert (n + ext)[..|n|] == n;
    n + ext
  }

  /** Replacing the other characters by dashes leaves only `[\w\-.]`. */
  lemma DashOutsideKeeps(s: string, isWord: char -> bool)
    ensures var d := DashOutside(s, StemKeep(isWord));
      forall i | 0 <= i < |d| :: StemKeep(isWord)(d[i])
  {
  }

  /** Before the dashes are stripped, the stem consists of `[\w\-.]` and has no `--`. */
  lemma CollapsedStemShape(s: string, isWord: char -> bool)
    ensures var c := CollapseRuns(DashOutside(s, StemKeep(isWord)), IsDash);
      (forall i | 0 <= i < |c| :: StemKeep(isWord)(c[i])) && NoDoubleDash(c)
  {
    DashOutsideKeeps(s, isWord);
    CollapseRunsPreserves(DashOutside(s, StemKeep(isWord)), IsDash, StemKeep(isWord));
  }

  /** A cleaned stem consists of `[\w\-.]`, has no `--` and no dash at either end. */
  lemma CleanStemShape(s: string, isWord: char -> bool)
    ensures var r := CleanStem(s, isWord);
      (forall i | 0 <= i < |r| :: StemKeep(isWord)(r[i])) && DashTidy(r)
  {
    var c := CollapseRuns(DashOutside(s, StemKeep(isWord)), IsDash);
    CollapsedStemShape(s, isWord);
    StripDashesTidies(c);
    var a := StripStart(c, IsDash);
    var r := CleanStem(s, isWord);
    forall i | 0 <= i < |r| ensures StemKeep(isWord)(r[i]) {
      assert r[i] == c[a + i];
    }
  }

  /** The fallback name is `image-` and a number below 10000, with no CJK character and no slash. */
  lemma FallbackShape(h: int)
    ensures var r := FallbackName(h);
      && StartsWith(r, "image-") && AllDigits(r[6..]) && ParseDec(r[6..]) < 10000
      && Usable(r) && NoSlash(r)
  {
    var r := FallbackName(h);
    var d := Dec(h % 10000);
    assert r[6..] == d;
    ParseDecOfDec(h % 10000);
    forall i | 0 <= i < |r| ensures !IsCjk(r[i]) && r[i] != '/' {
      if i >= 6 {
        assert r[i] == d[i - 6];
      }
    }
  }

  /** The stem of the new name is the cleaned stem when that is usable, and otherwise the fallback. */
  lemma EnglishStemShape(name: string, table: Table, isWord: char -> bool, h: int)
    ensures var r := EnglishFilename(name, table, isWord, h);
      var n := r[..|r| - |SplitExt(name).1|];
      || n == FallbackName(h)
      || (Usable(n) && DashTidy(n) && forall i | 0 <= i < |n| :: StemKeep(isWord)(n[i]))
  {
    CleanStemShape(ReplaceEach(SplitExt(name).0, table), isWord);
  }

  /** Without a slash in the word class, the stem of the new name has no slash and no CJK character. */
  lemma EnglishStemPlain(name: string, table: Table, isWord: char -> bool, h: int)
    requires !isWord('/')
    ensures var r := EnglishFilename(name, table, isWord, h);
      var n := r[..|r| - |SplitExt(name).1|];
      Usable(n) && NoSlash(n)
  {
    EnglishStemShape(name, table, isWord, h);
    FallbackShape(h);
  }

  // ---------------------------------------------------------------------------
  // Which files are renamed, and to what
  // ---------------------------------------------------------------------------

  /** A file is renamed when its name ends in `.webp` and contains a CJK character. */
  predicate Selected(name: string) {
    EndsWith(name, ".webp") && HasCjk(name)
  }

  /** A selected file name splits into a stem containing the CJK character and the extension `.webp`. */
  lemma SelectedExtension(name: string)
    requires Selected(name) && NoSlash(name)
    ensures SplitExt(name) == (name[..|name| - 5], ".webp")
  {
    var stem := name[..|name| - 5];
    assert name[|name| - 5..] == ".webp";
    forall j | |name| - 5 <= j < |name| ensures !IsCjk(name[j]) {
      assert name[j] == ".webp"[j - (|name| - 5)];
    }
    var i :| 0 <= i < |name| && IsCjk(name[i]);
    assert stem[i] == name[i];
    RFindIs(stem, '/', -1);
    assert HasNonDot(stem, 0, |stem|);
    assert stem + ".webp" == name;
    SplitExtOf(stem, ".webp");
  }

  /** No CJK character and no slash. */
  predicate Plain(s: string) {
    !HasCjk(s) && NoSlash(s)
  }

  lemma PlainConcat(a: string, b: string)
    requires Plain(a) && Plain(b)
    ensures Plain(a + b)
  {
    var r := a + b;
    forall i | 0 <= i < |r| ensures !IsCjk(r[i]) && r[i] != '/' {
      if i < |a| {
        assert r[i] == a[i];
      } else {
        assert r[i] == b[i - |a|];
      }
    }
  }

  lemma WebpPlain()
    ensures Plain(".webp")
  {
    var w := ".webp";
    assert forall i | 0 <= i < |w| :: w[i] in {'.', 'w', 'e', 'b', 'p'};
  }

  /** The new name of a selected file keeps `.webp` and has no CJK character and no slash. */
  lemma SelectedNewName(name: string, table: Table, isWord: char -> bool, h: int)
    requires Selected(name) && NoSlash(name) && !isWord('/')
    ensures var r := EnglishFilename(name, table, isWord, h);
      EndsWith(r, ".webp") && Plain(r)
  {
    SelectedExtension(name);
    EnglishStemPlain(name, table, isWord, h);
    WebpPlain();
    var r := EnglishFilename(name, table, isWord, h);
    assert |r| >= 5;
    var n := r[..|r| - 5];
    assert r == n + ".webp";
    PlainConcat(n, ".webp");
  }

  /** The `k`-th path tried for `base`: `base` itself, then `<stem>-<k><ext>` for k = 1, 2, ... */
  function Probe(base: string, k: nat): (r: string)
    ensures k == 0 ==> r == base
    ensures k > 0 ==> |r| > |base|
  {
    if k == 0 then base
    else SplitExt(base).0 + CounterSuffix(k) + SplitExt(base).1
  }

  /** The counter the collision loop puts between stem and extension. */
  function CounterSuffix(k: nat): string {
    "-" + Dec(k)
  }

  /** Every suffix gives a different path, none of them `base`. */
  lemma ProbeInjective(base: string, j: nat, k: nat)
    requires Probe(base, j) == Probe(base, k)
    ensures j == k
  {
    var (stem, ext) := SplitExt(base);
    if j > 0 && k > 0 {
      var a := Probe(base, j);
      var n := |stem| + 1;
      assert |Dec(j)| == |Dec(k)|;
      assert a[n..n + |Dec(j)|] == Dec(j);
      assert Probe(base, k)[n..n + |Dec(k)|] == Dec(k);
      DecInjective(j, k);
    }
  }

  /** The paths tried for `base`, as a function of the attempt number. */
  function ProbeFrom(base: string): nat -> string {
    (k: nat) => Probe(base, k)
  }

  /** The first `k` attempts try `k` different paths. */
  lemma ProbesDistinct(base: string, k: nat)
    ensures forall i, j | 0 <= i < j < k :: ProbeFrom(base)(i) != ProbeFrom(base)(j)
  {
    forall i, j | 0 <= i < j < k ensures Probe(base, i) != Probe(base, j) {
      if Probe(base, i) == Probe(base, j) {
        ProbeInjective(base, i, j);
      }
    }
  }

  /** The values `p(0)`, ..., `p(k - 1)`: `k` of them when no two are equal. */
  ghost function Firsts(p: nat -> string, k: nat): (r: set<string>)
    requires forall i, j | 0 <= i < j < k :: p(i) != p(j)
    ensures |r| == k
    ensures forall q | q in r :: exists j | 0 <= j < k :: q == p(j)
    decreases k
  {
    if k == 0 then {}
    else
      var e := Firsts(p, k - 1);
      e + {p(k - 1)}
  }

  /**
   * The collision loop: the first path in `base`, `<stem>-1<ext>`, `<stem>-2<ext>`, ... that does
   * not exist yet. It always ends, because the tried paths are distinct and only finitely many exist.
   */
  method ChooseTarget(base: string, existing: set<string>) returns (path: string, k: nat)
    ensures path == Probe(base, k) && path !in existing
    ensures forall j | 0 <= j < k :: Probe(base, j) in existing
  {
    k := 0;
    path := base;
    while path in existing
      invariant path == Probe(base, k)
      invariant forall j | 0 <= j < k :: Probe(base, j) in existing
      decreases |existing| - k
    {
      ProbesDistinct(base, k + 1);
      assert k + 1 <= |existing| by {
        SubsetCard(Firsts(ProbeFrom(base), k + 1), existing);
      }
      k := k + 1;
      path := Probe(base, k);
    }
  }

  lemma SubsetCard(a: set<string>, b: set<string>)
    requires a <= b
    ensures |a| <= |b|
  {
    assert b == a + (b - a);
  }

  // ---------------------------------------------------------------------------
  // Renaming the files of a directory tree
  // ---------------------------------------------------------------------------

  /** A file listed by the directory walk: its directory and its name. */
  datatype FileEntry = FileEntry(dir: string, name: string)

  function PathOf(e: FileEntry): string {
    e.dir + "/" + e.name
  }

  /** The URL at which the file at path `p` is served. */
  function Url(p: string): string {
    "/" + p
  }

  /** The last component of a path. */
  function LastName(p: string): string {
    p[RFind(p, '/') + 1..]
  }

  /** The last component of a path contains a CJK character. */
  predicate CjkNamed(p: string) {
    HasCjk(LastName(p))
  }

  lemma LastNameInDir(dir: string, f: string)
    requires NoSlash(f)
    ensures LastName(dir + "/" + f) == f
  {
    var d := dir + "/";
    RFindAppend(d, f, '/');
    RFindIs(d, '/', |dir|);
    assert (d + f)[|d|..] == f;
  }

  /** A slice of a plain string is plain. */
  lemma PlainSlice(s: string, a: nat, b: nat)
    requires Plain(s) && a <= b <= |s|
    ensures Plain(s[a..b])
  {
    var t := s[a..b];
    forall i | 0 <= i < |t| ensures !IsCjk(t[i]) && t[i] != '/' {
      assert t[i] == s[a + i];
    }
  }

  lemma DecPlain(k: nat)
    ensures Plain(Dec(k))
  {
    var d := Dec(k);
    assert forall i | 0 <= i < |d| :: IsAsciiDigit(d[i]);
  }

  /** Every path tried for a plain name is plain. */
  lemma ProbePlain(f: string, k: nat)
    requires Plain(f)
    ensures Plain(Probe(f, k))
  {
    if k > 0 {
      var (stem, ext) := SplitExt(f);
      PlainSlice(f, 0, |stem|);
      assert f[0..|stem|] == stem;
      PlainSlice(f, |stem|, |f|);
      assert f[|stem|..|f|] == ext;
      DecPlain(k);
      assert Plain("-");
      PlainConcat("-", Dec(k));
      PlainConcat(stem, CounterSuffix(k));
      PlainConcat(stem + CounterSuffix(k), ext);
    }
  }

  /** The paths tried for a file stay in its directory. */
  lemma ProbeInDir(dir: string, f: string, k: nat)
    requires NoSlash(f)
    ensures Probe(dir + "/" + f, k) == dir + "/" + Probe(f, k)
  {
    if k > 0 {
      var d := dir + "/";
      var sf := SplitExt(f);
      SplitExtInDir(dir, f);
      ProbeSplit(f, k, sf.0, sf.1);
      ProbeSplit(d + f, k, d + sf.0, sf.1);
      ConcatAssoc(d, sf.0, CounterSuffix(k), sf.1);
    }
  }

  /** A later attempt, in terms of the split of the base path. */
  lemma ProbeSplit(base: string, k: nat, stem: string, ext: string)
    requires k > 0 && SplitExt(base) == (stem, ext)
    ensures Probe(base, k) == stem + CounterSuffix(k) + ext
  {
  }

  lemma ConcatAssoc(a: string, b: string, c: string, e: string)
    ensures a + b + c + e == a + (b + c + e)
  {
  }

  /** Every key of the URL map is the URL of a CJK-named path. */
  ghost predicate KeysCjk(renamed: map<string, string>) {
    forall u | u in renamed :: |u| > 0 && CjkNamed(u[1..])
  }

  /** Every value is the URL of a path that exists now, did not exist before, and is not CJK-named. */
  ghost predicate ValuesFresh(renamed: map<string, string>, now: set<string>, existing: set<string>) {
    forall u | u in renamed ::
      |renamed[u]| > 0 && renamed[u][1..] in now && renamed[u][1..] !in existing && !CjkNamed(renamed[u][1..])
  }

  /** No two keys map to the same URL. */
  ghost predicate ValuesDistinct(renamed: map<string, string>) {
    forall u, v | u in renamed && v in renamed && u != v :: renamed[u] != renamed[v]
  }

  /** Every path that existed before and is not CJK-named still exists. */
  ghost predicate OthersKept(now: set<string>, existing: set<string>) {
    forall q | q in existing && !CjkNamed(q) :: q in now
  }

  /** The state a rename pass keeps: the URL map so far, the paths that exist now, and those that existed before. */
  ghost predicate PassInv(renamed: map<string, string>, now: set<string>, existing: set<string>) {
    KeysCjk(renamed) && ValuesFresh(renamed, now, existing) && ValuesDistinct(renamed) && OthersKept(now, existing)
  }

  lemma MoveKeepsValuesFresh(renamed: map<string, string>, now: set<string>, existing: set<string>, source: string, target: string)
    requires ValuesFresh(renamed, now, existing) && OthersKept(now, existing)
    requires CjkNamed(source) && !CjkNamed(target) && target !in now
    ensures ValuesFresh(renamed[Url(source) := Url(target)], now - {source} + {target}, existing)
  {
    var r := renamed[Url(source) := Url(target)];
    var n := now - {source} + {target};
    assert Url(target)[1..] == target;
    forall u | u in r
      ensures |r[u]| > 0 && r[u][1..] in n && r[u][1..] !in existing && !CjkNamed(r[u][1..])
    {
      if u != Url(source) {
        assert r[u] == renamed[u];
      }
    }
  }

  lemma MoveKeepsValuesDistinct(renamed: map<string, string>, now: set<string>, existing: set<string>, source: string, target: string)
    requires ValuesFresh(renamed, now, existing) && ValuesDistinct(renamed)
    requires target !in now
    ensures ValuesDistinct(renamed[Url(source) := Url(target)])
  {
    var r := renamed[Url(source) := Url(target)];
    assert Url(target)[1..] == target;
    forall u, v | u in r && v in r && u != v ensures r[u] != r[v] {
      if u != Url(source) && v != Url(source) {
        assert r[u] == renamed[u] && r[v] == renamed[v];
      } else if u != Url(source) {
        assert r[u] == renamed[u];
      } else {
        assert r[v] == renamed[v];
      }
    }
  }

  /** Moving a CJK-named file to a fresh path without CJK in its name keeps the invariant. */
  lemma MoveKeepsInv(renamed: map<string, string>, now: set<string>, existing: set<string>, source: string, target: string)
    requires PassInv(renamed, now, existing)
    requires CjkNamed(source) && !CjkNamed(target) && target !in now
    ensures PassInv(renamed[Url(source) := Url(target)], now - {source} + {target}, existing)
  {
    assert Url(source)[1..] == source;
    MoveKeepsValuesFresh(renamed, now, existing, source, target);
    MoveKeepsValuesDistinct(renamed, now, existing, source, target);
  }

  /** The listing of a directory walk: existing files, each listed once. */
  ghost predicate WalkListing(files: seq<FileEntry>, existing: set<string>) {
    && (forall i | 0 <= i < |files| :: PathOf(files[i]) in existing)
    && (forall i, j | 0 <= i < j < |files| :: PathOf(files[i]) != PathOf(files[j]))
  }

  /** Every key is the URL of a selected file among the first `i`. */
  ghost predicate KeysListed(files: seq<FileEntry>, i: nat, renamed: map<string, string>)
    requires i <= |files|
  {
    forall u | u in renamed :: exists j | 0 <= j < i :: Selected(files[j].name) && u == Url(PathOf(files[j]))
  }

  /** The files from the `i`-th on still exist. */
  ghost predicate Pending(files: seq<FileEntry>, i: nat, now: set<string>)
    requires i <= |files|
  {
    forall j | i <= j < |files| :: PathOf(files[j]) in now
  }

  /** Every selected file among the first `i` has its URL in the map. */
  ghost predicate Covered(files: seq<FileEntry>, i: nat, renamed: map<string, string>)
    requires i <= |files|
  {
    forall j | 0 <= j < i && Selected(files[j].name) :: Url(PathOf(files[j])) in renamed
  }

  /** The invariant of the pass after the first `i` files. */
  ghost predicate LoopInv(files: seq<FileEntry>, existing: set<string>, i: nat, renamed: map<string, string>, now: set<string>) {
    && i <= |files|
    && PassInv(renamed, now, existing)
    && KeysListed(files, i, renamed)
    && (WalkListing(files, existing) ==> Pending(files, i, now) && Covered(files, i, renamed))
  }

  lemma MoveKeepsListed(files: seq<FileEntry>, i: nat, renamed: map<string, string>, v: string)
    requires i < |files| && Selected(files[i].name) && KeysListed(files, i, renamed)
    ensures KeysListed(files, i + 1, renamed[Url(PathOf(files[i])) := v])
  {
    var r := renamed[Url(PathOf(files[i])) := v];
    forall u | u in r ensures exists j | 0 <= j < i + 1 :: Selected(files[j].name) && u == Url(PathOf(files[j])) {
      if u != Url(PathOf(files[i])) {
        var j :| 0 <= j < i && Selected(files[j].name) && u == Url(PathOf(files[j]));
      }
    }
  }

  lemma MoveKeepsPending(files: seq<FileEntry>, existing: set<string>, i: nat, now: set<string>, target: string)
    requires i < |files| && WalkListing(files, existing) && Pending(files, i, now)
    ensures Pending(files, i + 1, now - {PathOf(files[i])} + {target})
  {
    forall j | i + 1 <= j < |files| ensures PathOf(files[j]) in now - {PathOf(files[i])} + {target} {
      assert PathOf(files[i]) != PathOf(files[j]);
    }
  }

  lemma MoveKeepsCovered(files: seq<FileEntry>, i: nat, renamed: map<string, string>, v: string)
    requires i < |files| && Covered(files, i, renamed)
    ensures Covered(files, i + 1, renamed[Url(PathOf(files[i])) := v])
  {
  }

  /** Moving the `i`-th file, a selected one that still exists, keeps the invariant. */
  lemma MoveStep(files: seq<FileEntry>, existing: set<string>, i: nat, renamed: map<string, string>, now: set<string>, target: string)
    requires i < |files| && LoopInv(files, existing, i, renamed, now)
    requires Selected(files[i].name) && CjkNamed(PathOf(files[i]))
    requires !CjkNamed(target) && target !in now
    ensures LoopInv(files, existing, i + 1, renamed[Url(PathOf(files[i])) := Url(target)], now - {PathOf(files[i])} + {target})
  {
    var source := PathOf(files[i]);
    MoveKeepsInv(renamed, now, existing, source, target);
    MoveKeepsListed(files, i, renamed, Url(target));
    if WalkListing(files, existing) {
      MoveKeepsPending(files, existing, i, now, target);
      MoveKeepsCovered(files, i, renamed, Url(target));
    }
  }

  /** Passing over the `i`-th file without a move keeps the invariant when the file is not selected or no longer exists. */
  lemma SkipStep(files: seq<FileEntry>, existing: set<string>, i: nat, renamed: map<string, string>, now: set<string>)
    requires i < |files| && LoopInv(files, existing, i, renamed, now)
    requires !Selected(files[i].name) || PathOf(files[i]) !in now
    ensures LoopInv(files, existing, i + 1, renamed, now)
  {
    forall u | u in renamed ensures exists j | 0 <= j < i + 1 :: Selected(files[j].name) && u == Url(PathOf(files[j])) {
      var j :| 0 <= j < i && Selected(files[j].name) && u == Url(PathOf(files[j]));
    }
  }

  /** The first path tried for a selected file: its English name in its own directory. */
  function NewPath(e: FileEntry, table: Table, isWord: char -> bool, hash: string -> int): string {
    e.dir + "/" + EnglishFilename(e.name, table, isWord, hash(SplitExt(e.name).0))
  }

  /** No path tried for a selected file is CJK-named. */
  lemma NewPathProbePlain(e: FileEntry, table: Table, isWord: char -> bool, hash: string -> int, k: nat)
    requires Selected(e.name) && NoSlash(e.name) && !isWord('/')
    ensures !CjkNamed(Probe(NewPath(e, table, isWord, hash), k))
    ensures Probe(NewPath(e, table, isWord, hash), k)
            == e.dir + "/" + Probe(EnglishFilename(e.name, table, isWord, hash(SplitExt(e.name).0)), k)
  {
    var newName := EnglishFilename(e.name, table, isWord, hash(SplitExt(e.name).0));
    SelectedNewName(e.name, table, isWord, hash(SplitExt(e.name).0));
    ProbeInDir(e.dir, newName, k);
    ProbePlain(newName, k);
    LastNameInDir(e.dir, Probe(newName, k));
  }

  /**
   * Where a selected file goes: the `k`-th path tried for its English name in its directory,
   * `k` being the first attempt whose path does not exist yet.
   */
  method MoveTarget(e: FileEntry, now: set<string>, table: Table, isWord: char -> bool, hash: string -> int)
    returns (target: string, k: nat)
    requires Selected(e.name) && NoSlash(e.name) && !isWord('/')
    ensures target == e.dir + "/" + Probe(EnglishFilename(e.name, table, isWord, hash(SplitExt(e.name).0)), k)
    ensures target == Probe(NewPath(e, table, isWord, hash), k) && target !in now
    ensures forall j | 0 <= j < k :: Probe(NewPath(e, table, isWord, hash), j) in now
    ensures !CjkNamed(target) && CjkNamed(PathOf(e))
  {
    target, k := ChooseTarget(NewPath(e, table, isWord, hash), now);
    NewPathProbePlain(e, table, isWord, hash, k);
    LastNameInDir(e.dir, e.name);
  }

  /** `v` is the URL of an attempt for `base` all of whose earlier attempts exist in `now`. */
  ghost predicate FirstFreeUrl(v: string, base: string, now: set<string>) {
    exists k: nat :: v == Url(Probe(base, k)) && forall m | 0 <= m < k :: Probe(base, m) in now
  }

  /** The first path tried for each file, under the script's naming. */
  function NewPathWith(table: Table, isWord: char -> bool, hash: string -> int): FileEntry -> string {
    (e: FileEntry) => NewPath(e, table, isWord, hash)
  }

  /** No attempt for `base` is CJK-named. */
  ghost predicate PlainProbes(base: string) {
    forall m: nat :: !CjkNamed(Probe(base, m))
  }

  /** No attempt for any selected file of the listing is CJK-named. */
  lemma NewPathsPlain(files: seq<FileEntry>, table: Table, isWord: char -> bool, hash: string -> int)
    requires !isWord('/') && forall j | 0 <= j < |files| :: NoSlash(files[j].name)
    ensures forall j | 0 <= j < |files| && Selected(files[j].name) :: PlainProbes(NewPathWith(table, isWord, hash)(files[j]))
  {
    forall j | 0 <= j < |files| && Selected(files[j].name) ensures PlainProbes(NewPathWith(table, isWord, hash)(files[j])) {
      forall m: nat ensures !CjkNamed(Probe(NewPath(files[j], table, isWord, hash), m)) {
        NewPathProbePlain(files[j], table, isWord, hash, m);
      }
    }
  }

  /**
   * Every key is the URL of a selected file among the first `i`, mapped to the first free attempt
   * for the first path `first` gives that file.
   */
  ghost predicate ValuesChosen(files: seq<FileEntry>, i: nat, renamed: map<string, string>, now: set<string>,
                               first: FileEntry -> string)
    requires i <= |files|
  {
    forall u | u in renamed :: exists j | 0 <= j < i ::
      Selected(files[j].name) && u == Url(PathOf(files[j])) && FirstFreeUrl(renamed[u], first(files[j]), now)
  }

  /** Attempts that exist stay when a CJK-named file is moved away, since none of them is CJK-named. */
  lemma ProbesSurviveMove(base: string, k: nat, now: set<string>, source: string, target: string)
    requires PlainProbes(base) && CjkNamed(source)
    requires forall m | 0 <= m < k :: Probe(base, m) in now
    ensures forall m | 0 <= m < k :: Probe(base, m) in now - {source} + {target}
  {
    forall m | 0 <= m < k ensures Probe(base, m) in now - {source} + {target} {
      assert !CjkNamed(Probe(base, m));
    }
  }

  /** A value chosen before the move of a CJK-named file is still the first free attempt after it. */
  lemma FirstFreeSurvivesMove(v: string, base: string, now: set<string>, source: string, target: string)
    requires PlainProbes(base) && CjkNamed(source) && FirstFreeUrl(v, base, now)
    ensures FirstFreeUrl(v, base, now - {source} + {target})
  {
    var k: nat :| v == Url(Probe(base, k)) && forall m | 0 <= m < k :: Probe(base, m) in now;
    ProbesSurviveMove(base, k, now, source, target);
  }

  /** Recording the move of the `i`-th file to its first free attempt keeps every value chosen. */
  lemma ChosenMove(files: seq<FileEntry>, i: nat, renamed: map<string, string>, now: set<string>,
                   first: FileEntry -> string, target: string, k: nat)
    requires i < |files| && Selected(files[i].name) && CjkNamed(PathOf(files[i]))
    requires forall j | 0 <= j < |files| && Selected(files[j].name) :: PlainProbes(first(files[j]))
    requires ValuesChosen(files, i, renamed, now, first)
    requires target == Probe(first(files[i]), k)
    requires forall m | 0 <= m < k :: Probe(first(files[i]), m) in now
    ensures ValuesChosen(files, i + 1, renamed[Url(PathOf(files[i])) := Url(target)],
                         now - {PathOf(files[i])} + {target}, first)
  {
    var source := PathOf(files[i]);
    var r := renamed[Url(source) := Url(target)];
    var n := now - {source} + {target};
    forall u | u in r ensures exists j | 0 <= j < i + 1 ::
      Selected(files[j].name) && u == Url(PathOf(files[j])) && FirstFreeUrl(r[u], first(files[j]), n)
    {
      if u == Url(source) {
        ProbesSurviveMove(first(files[i]), k, now, source, target);
        assert FirstFreeUrl(r[u], first(files[i]), n);
      } else {
        var j :| 0 <= j < i && Selected(files[j].name) && u == Url(PathOf(files[j]))
                 && FirstFreeUrl(renamed[u], first(files[j]), now);
        FirstFreeSurvivesMove(renamed[u], first(files[j]), now, source, target);
        assert r[u] == renamed[u];
      }
    }
  }

  /** Passing over the `i`-th file without a move keeps every value chosen. */
  lemma ChosenSkip(files: seq<FileEntry>, i: nat, renamed: map<string, string>, now: set<string>, first: FileEntry -> string)
    requires i < |files| && ValuesChosen(files, i, renamed, now, first)
    ensures ValuesChosen(files, i + 1, renamed, now, first)
  {
    forall u | u in renamed ensures exists j | 0 <= j < i + 1 ::
      Selected(files[j].name) && u == Url(PathOf(files[j])) && FirstFreeUrl(renamed[u], first(files[j]), now)
    {
      var j :| 0 <= j < i && Selected(files[j].name) && u == Url(PathOf(files[j]))
               && FirstFreeUrl(renamed[u], first(files[j]), now);
    }
  }

  /**
   * The rename pass over the walked files: each selected file is moved to the first free path
   * tried for its English name in its directory, and its old URL mapped to the new one. A move
   * whose source no longer exists fails and is not recorded. The paths tried before the one
   * chosen still exist when the pass ends, since only CJK-named files are moved away. The script
   * names the files with `WordTable`; the pass is stated for any table.
   */
  method RenameFiles(files: seq<FileEntry>, existing: set<string>, table: Table, isWord: char -> bool, hash: string -> int)
    returns (renamed: map<string, string>, now: set<string>)
    requires !isWord('/')
    requires forall i | 0 <= i < |files| :: NoSlash(files[i].name)
    ensures forall u | u in renamed :: exists i | 0 <= i < |files| ::
      && Selected(files[i].name) && u == Url(PathOf(files[i]))
      && FirstFreeUrl(renamed[u], NewPath(files[i], table, isWord, hash), now)
    ensures forall u | u in renamed ::
      |renamed[u]| > 0 && renamed[u][1..] in now && renamed[u][1..] !in existing && !CjkNamed(renamed[u][1..])
    ensures forall u, v | u in renamed && v in renamed && u != v :: renamed[u] != renamed[v]
    ensures forall q | q in existing && !CjkNamed(q) :: q in now
    ensures WalkListing(files, existing) ==>
      forall i | 0 <= i < |files| && Selected(files[i].name) :: Url(PathOf(files[i])) in renamed
  {
    renamed := map[];
    now := existing;
    NewPathsPlain(files, table, isWord, hash);
    var i := 0;
    while i < |files|
      invariant LoopInv(files, existing, i, renamed, now)
      invariant ValuesChosen(files, i, renamed, now, NewPathWith(table, isWord, hash))
    {
      var e := files[i];
      if Selected(e.name) && PathOf(e) in now {
        var target, k := MoveTarget(e, now, table, isWord, hash);
        MoveStep(files, existing, i, renamed, now, target);
        ChosenMove(files, i, renamed, now, NewPathWith(table, isWord, hash), target, k);
        renamed := renamed[Url(PathOf(e)) := Url(target)];
        now := now - {PathOf(e)} + {target};
      } else {
        SkipStep(files, existing, i, renamed, now);
        ChosenSkip(files, i, renamed, now, NewPathWith(table, isWord, hash));
      }
      i := i + 1;
    }
  }

  /** In the map a pass builds no new URL is an old one: the old names have CJK characters, the new ones none. */
  lemma RenamedValuesNotKeys(renamed: map<string, string>, now: set<string>, existing: set<string>)
    requires PassInv(renamed, now, existing)
    ensures ValuesNotKeys(renamed)
  {
  }

  // ---------------------------------------------------------------------------
  // Pointing the JSON data at the new URLs
  // ---------------------------------------------------------------------------

  /** One photo of a gallery. */
  datatype Photo = Photo(
    id: string, title: string, url: string, thumbnailUrl: string,
    description: Option<string>, date: string, location: Option<string>)

  /** A gallery: a series of photos with a cover. */
  datatype Gallery = Gallery(slug: string, title: string, description: string, coverPhotoUrl: string, photos: seq<Photo>)

  /** A URL that was renamed becomes its new URL; any other stays. */
  function RemapUrl(u: string, renamed: map<string, string>): (r: string)
    ensures u in renamed ==> r == renamed[u]
    ensures r == u || r in renamed.Values
  {
    if u in renamed then renamed[u] else u
  }

  /** A URL changes exactly when it is a key that maps to something else, and then it becomes that. */
  lemma RemapUrlChanges(u: string, renamed: map<string, string>)
    ensures RemapUrl(u, renamed) != u <==> u in renamed && renamed[u] != u
    ensures RemapUrl(u, renamed) != u ==> RemapUrl(u, renamed) == renamed[u]
  {
  }

  /** No new URL is itself renamed. */
  predicate ValuesNotKeys(renamed: map<string, string>) {
    forall u | u in renamed :: renamed[u] !in renamed
  }

  /** When no new URL is itself renamed, remapping a remapped URL changes nothing. */
  lemma RemapUrlIdempotent(u: string, renamed: map<string, string>)
    requires ValuesNotKeys(renamed)
    ensures RemapUrl(RemapUrl(u, renamed), renamed) == RemapUrl(u, renamed)
  {
  }

  function RemapAll(us: seq<string>, renamed: map<string, string>): (r: seq<string>)
    ensures |r| == |us|
    ensures forall i | 0 <= i < |us| :: r[i] == RemapUrl(us[i], renamed)
  {
    seq(|us|, i requires 0 <= i < |us| => RemapUrl(us[i], renamed))
  }

  /** A tutorial with its cover and image URLs remapped; every other field is kept. */
  function RemapTutorial(p: Post, renamed: map<string, string>): (r: Post)
    ensures r.featuredImageUrl == RemapUrl(p.featuredImageUrl, renamed)
    ensures r.images.Some? <==> p.images.Some?
    ensures p.images.Some? ==> r.images.value == RemapAll(p.images.value, renamed)
    ensures r.(featuredImageUrl := p.featuredImageUrl, images := p.images) == p
  {
    var images := match p.images
      case None => None
      case Some(us) => Some(RemapAll(us, renamed));
    p.(featuredImageUrl := RemapUrl(p.featuredImageUrl, renamed), images := images)
  }

  /** A photo with its image and thumbnail URLs remapped. */
  function RemapPhoto(ph: Photo, renamed: map<string, string>): (r: Photo)
    ensures r.url == RemapUrl(ph.url, renamed) && r.thumbnailUrl == RemapUrl(ph.thumbnailUrl, renamed)
    ensures r.(url := ph.url, thumbnailUrl := ph.thumbnailUrl) == ph
  {
    ph.(url := RemapUrl(ph.url, renamed), thumbnailUrl := RemapUrl(ph.thumbnailUrl, renamed))
  }

  /** A gallery with its cover and every photo remapped; the photos keep their number and order. */
  function RemapGallery(g: Gallery, renamed: map<string, string>): (r: Gallery)
    ensures r.coverPhotoUrl == RemapUrl(g.coverPhotoUrl, renamed)
    ensures |r.photos| == |g.photos|
    ensures forall i | 0 <= i < |g.photos| :: r.photos[i] == RemapPhoto(g.photos[i], renamed)
    ensures r.(coverPhotoUrl := g.coverPhotoUrl, photos := g.photos) == g
  {
    var photos := seq(|g.photos|, i requires 0 <= i < |g.photos| => RemapPhoto(g.photos[i], renamed));
    g.(coverPhotoUrl := RemapUrl(g.coverPhotoUrl, renamed), photos := photos)
  }

  /** The two JSON files after the update: every tutorial and every gallery remapped, in their order. */
  function UpdateJsonFiles(tutorials: seq<Post>, galleries: seq<Gallery>, renamed: map<string, string>)
    : (r: (seq<Post>, seq<Gallery>))
    ensures |r.0| == |tutorials| && |r.1| == |galleries|
    ensures forall i | 0 <= i < |tutorials| :: r.0[i] == RemapTutorial(tutorials[i], renamed)
    ensures forall i | 0 <= i < |galleries| :: r.1[i] == RemapGallery(galleries[i], renamed)
  {
    (seq(|tutorials|, i requires 0 <= i < |tutorials| => RemapTutorial(tutorials[i], renamed)),
     seq(|galleries|, i requires 0 <= i < |galleries| => RemapGallery(galleries[i], renamed)))
  }

  /** A tutorial none of whose URLs was renamed is left as it is. */
  lemma RemapTutorialUntouched(p: Post, renamed: map<string, string>)
    requires p.featuredImageUrl !in renamed
    requires p.images.Some? ==> forall i | 0 <= i < |p.images.value| :: p.images.value[i] !in renamed
    ensures RemapTutorial(p, renamed) == p
  {
    if p.images.Some? {
      assert RemapAll(p.images.value, renamed) == p.images.value;
    }
  }

  /** Running the update twice with the map of a rename pass gives the same data as running it once. */
  lemma UpdateJsonIdempotent(tutorials: seq<Post>, galleries: seq<Gallery>, renamed: map<string, string>)
    requires ValuesNotKeys(renamed)
    ensures var once := UpdateJsonFiles(tutorials, galleries, renamed);
      UpdateJsonFiles(once.0, once.1, renamed) == once
  {
    var once := UpdateJsonFiles(tutorials, galleries, renamed);
    var twice := UpdateJsonFiles(once.0, once.1, renamed);
    forall i | 0 <= i < |tutorials| ensures twice.0[i] == once.0[i] {
      var p := once.0[i];
      if p.images.Some? {
        assert RemapAll(p.images.value, renamed) == p.images.value;
      }
    }
    forall i | 0 <= i < |galleries| ensures twice.1[i] == once.1[i] {
      var g := once.1[i];
      assert RemapGallery(g, renamed).photos == g.photos;
    }
    assert twice.0 == once.0;
    assert twice.1 == once.1;
  }
}
