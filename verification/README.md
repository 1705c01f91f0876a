# Photography site: admin post store and maintenance passes

A Dafny model of the logic core of a bilingual (Chinese/English) photography website built with
Next.js, together with the Python scripts that migrated its image files to English names.

- **Admin post store** (`PostStore`, over `Posts` and `StableSort`). The site keeps two JSON
  arrays: blog posts and tutorials. The admin API treats them as one store.
  - A create request is validated: required fields, and a slug unique across both collections.
  - It is routed to one collection and its defaults are filled in.
  - A tutorial is appended and the tutorials are stable-sorted by lesson order; a blog post is
    put in front.
  - Exactly one file is written.
  - The listing tags every post with its collection, concatenates the two and sorts newest first.
- **Admin form** (`BlogForm`): initial values, the automatic slug, submit validation, the
  lesson-order confirmation, and the request the form sends (endpoint, verb, `order`, `images`,
  `type`).
- **Navigation bar** (`Navbar`): locale detection, the menu links and the language switch link.
- **Admin overview** (`AdminPage`): the category filter, the button counts, the lesson badge, and
  the local list update after a delete.
- **File-name migration scripts**:
  - `RemainingNames`: the whole-name/word table and its cleanup, and the rename-only-if-changed rule.
  - `ChineseFilenames`:
    - the English name of a `.webp` file with CJK characters;
    - the collision suffixes `-1`, `-2`, …;
    - the rename pass;
    - the rewrite of tutorial and gallery URLs through the rename map.
  - `FolderRename`: the first-match folder-name rewrite of tutorial URLs.
  - `Mappings` models the scripts' dictionaries as sequences of pairs, so insertion order is kept.

The rest is shared vocabulary:
- `Options`;
- `Seqs` (filter);
- `Strings`:
  - JavaScript/Python `replace`, strip, run collapsing;
  - decimal rendering and parsing;
  - split/join on a separator.

Design decisions:
- File reads are inputs of type `Option<seq<Post>>`, where `None` is a failed read or parse. As
  in the source's read helpers, a failed read counts as an empty collection.
- A write's success is a `bool` input. A create returns the response together with the one write
  it attempts.
- "Today", `new Date(d).getTime()` (a function `dateValue`), Python's `hash`, and Python's Unicode
  `\w` class (a predicate `isWord`) are parameters. The CJK class `[一-鿿]` is the
  concrete code-point range.
- The file system of a script pass is a set of paths relative to `public`, with `/` as separator.
  A move succeeds when its source still exists.
- The dictionaries of `fix_remaining_chinese_names.py` and `rename_folders.py` and the word table
  of `create_english_filename` are constants in source order. The word table repeats one key
  (`要素`) with the same value, so it is listed once at its first position, as a Python dictionary
  keeps it.

Behaviour of the code that the model keeps, and that its own texts describe differently:
- **Unordered tutorials go first, not last.**
  - The form warns that a tutorial with no lesson order "will be put last"
    (`src/components/BlogForm.tsx:58`).
  - The API sorts a missing order as 0 (`src/app/api/admin/posts/route.ts:109`), so the tutorial
    goes in front of every tutorial with a positive order.
  - The model follows the API. `PostStore.UnorderedTutorialGoesFirst` and
    `BlogForm.UnorderedTutorialNotLast` prove the actual placement.
- **`/en` is a plain prefix test.**
  - Any path starting with the letters `/en` counts as English, e.g. `/enquiry`.
  - The switch link then deletes those three letters, so `/enquiry` switches to `quiry`
    (`Navbar.SwitchStripsBareEnPrefix`).
- **Titles without ASCII letters or digits get no automatic slug.**
  - The form's automatic slug keeps only ASCII letters, digits, `_`, `-` and blanks.
  - So a title written wholly in Chinese gets an empty slug, and the API refuses the create for a
    missing field (`BlogForm.NonAsciiTitleRefused`).
- **The automatic slug stops at the first non-empty result.**
  - The effect runs again on every title change, but only while the slug is empty
    (`src/components/BlogForm.tsx:29-38`).
  - So a title typed key by key keeps the slug of its first prefix that gives a non-empty slug:
    typing "Hello" leaves the slug `h` (`BlogForm.TypingKeepsFirstSlug`).
- **An unreadable blog file does not protect its slugs.**
  - A file that cannot be read counts as empty (`src/app/api/admin/posts/route.ts:9-17`), also
    for the slug check.
  - So a tutorial create may take the slug of an existing blog post, leaving two posts with the
    same slug (`PostStore.UnreadableBlogAdmitsDuplicate`). Slug uniqueness is proved for stores
    whose files both read (`PostStore.CreateKeepsSlugsUnique`).

## Model

| member | source | states |
|---|---|---|
| PostStore.NewPost | src/app/api/admin/posts/route.ts:94-104 | The stored record copies slug, title, excerpt and content. An empty publish date becomes today and a missing cover becomes `''`. An empty category becomes the tutorial category for a tutorial destination, else the blog category. The order is kept exactly when it is present and non-zero. Images are kept as given. |
| PostStore.StoredCategoryAgreesWithRoute | src/app/api/admin/posts/route.ts:82-101 | A record stored with the tutorial category was routed to the tutorials. When the request gave no category, the stored category is the tutorial one exactly when the route is. |
| PostStore.Create | src/app/api/admin/posts/route.ts:69-133 | A write is attempted exactly when the body parses to a JSON value other than `null`, has all four required fields, and has a slug found in neither collection. The answer is 201 exactly when that write succeeds, and then carries the stored record. The tutorial file is the target exactly when `type` is `tutorial` or the category is the tutorial one. |
| PostStore.CreateErrors | src/app/api/admin/posts/route.ts:75-132 | Each failure has its own answer: an unreadable body gives 500 "internal", a missing field gives 400, a taken slug gives 400 "exists", a failed write gives 500 "save failed". |
| PostStore.CreateTutorialWrite | src/app/api/admin/posts/route.ts:106-109 | A tutorial create writes a stable sort by order (missing = 0) of the loaded tutorials plus the new post. The result is a permutation, one longer, and contains the post. On an already sorted file it is the insertion of the post after every tutorial of no larger order. |
| PostStore.CreateBlogWrite | src/app/api/admin/posts/route.ts:114-117 | A blog create writes the new post followed by the loaded blog posts, in their order. |
| PostStore.UnreadableBlogOverwritten | src/app/api/admin/posts/route.ts:9-17 | When the blog file cannot be read, a blog create succeeds and writes a file holding only the new post. |
| PostStore.CreateKeepsSlugsUnique | src/app/api/admin/posts/route.ts:86-92 | On a store whose two files both read, slugs unique across both collections stay unique after any create, whatever its response and write outcome. |
| PostStore.UnreadableBlogAdmitsDuplicate | src/app/api/admin/posts/route.ts:83-107 | When the blog file cannot be read, a tutorial create whose slug is taken by a blog post succeeds, and the store then holds two posts with that slug. |
| PostStore.UnorderedTutorialGoesFirst | src/app/api/admin/posts/route.ts:109 | A tutorial created without an order, into a sorted file whose orders are all positive, is written first. |
| PostStore.TagAll | src/app/api/admin/posts/route.ts:52-53 | Tagging keeps every post in place and marks it with its collection. |
| PostStore.List | src/app/api/admin/posts/route.ts:50-66 | The listing holds as many posts as both files together, is a permutation of the tagged blog posts followed by the tagged tutorials, and is ordered newest first. |
| PostStore.ListSorted | src/app/api/admin/posts/route.ts:52-57 | The listing is a permutation of the tagged blog posts followed by the tagged tutorials. Dates never increase along it. For each date the posts keep their order, blog posts before tutorials. |
| PostStore.ListOrigins | src/app/api/admin/posts/route.ts:52-54 | A post is listed with the blog tag exactly when it is in the blog file, and with the tutorial tag exactly when it is in the tutorial file. |
| PostStore.ListIsTheStableSort | src/app/api/admin/posts/route.ts:57 | Any stable newest-first sort of the merged collections equals the listing, so the listing is fully determined. |
| StableSort.Sort | src/app/api/admin/posts/route.ts:109 | Sorting keeps the length; the rest of what a stable sort promises is stated by the two lemmas below. |
| StableSort.SortIsStable | src/app/api/admin/posts/route.ts:109 | The sort used for tutorials and for the listing is ascending by key, a permutation, and keeps the relative order of elements with equal keys. |
| StableSort.StableSortUnique | src/app/api/admin/posts/route.ts:57 | Two sequences sorted by the same key, with the same elements of each key in the same order, are equal: a stable sort has exactly one result. |
| BlogForm.InitialForm | src/components/BlogForm.tsx:16-26 | A new form has every text field empty, is dated today, and has no order and no images. An edited post's title, slug, excerpt, content, cover and order are copied; its date is kept when non-empty and is today otherwise; its image list is joined with newlines, or empty when it has none. The category is the initial post's category when it has one, else the blog category, and is never empty. |
| BlogForm.AutoSlug | src/components/BlogForm.tsx:29-38 | The slug changes only when not editing, the title is non-empty and the slug is empty, and then becomes the slug of the title. No other field changes. |
| BlogForm.AutoSlugIdempotent | src/components/BlogForm.tsx:29-38 | Running the slug effect a second time changes nothing. |
| BlogForm.TypingKeepsFirstSlug | src/components/BlogForm.tsx:29-38 | Once a title gives a non-empty slug on a new post, extending that title keeps the slug, since the effect only fills an empty one. |
| BlogForm.Slugify | src/components/BlogForm.tsx:31-35 | A generated slug has no `--` and no dash at either end. |
| BlogForm.SlugifyShape | src/components/BlogForm.tsx:31-35 | A generated slug has only lower-case ASCII letters, digits and `-`, no `--`, and no dash at either end. |
| BlogForm.SlugifyIdempotent | src/components/BlogForm.tsx:31-35 | Slugifying a slug gives it back. |
| BlogForm.SlugOfSlug | src/components/BlogForm.tsx:31-35 | A string of slug characters with no `--` and no dash at either end is its own slug. |
| BlogForm.SlugifyWithoutAlnum | src/components/BlogForm.tsx:31-35 | A title without ASCII letters or digits gives the empty slug. |
| BlogForm.ParseImages | src/components/BlogForm.tsx:70 | The image list is absent exactly when the field is blank. |
| BlogForm.ParseImagesClean | src/components/BlogForm.tsx:70 | Every parsed image entry is non-empty, trimmed and free of newlines. |
| BlogForm.ParseImagesJoin | src/components/BlogForm.tsx:70 | A list of clean entries, joined with newlines as the form shows it, parses back to the same list (an empty list to absent). |
| BlogForm.Request | src/components/BlogForm.tsx:72-77 | Title, slug, excerpt, content, cover, date and category are sent as the form holds them. `type` is `tutorial` exactly when the category is the tutorial one, else `blog`. `order` is the form's order. `images` is the image field parsed into its list, absent exactly when the field is blank. |
| BlogForm.Endpoint | src/components/BlogForm.tsx:66 | A create goes to `/api/admin/posts`; an edit goes to `/api/admin/posts/` followed by the initial slug. |
| BlogForm.Submit | src/components/BlogForm.tsx:51-77 | A request is sent exactly when title, content and excerpt are non-empty and, for an unordered tutorial, the user confirmed. It is a PUT for an edit and a POST otherwise, to the endpoint, with the request body. |
| BlogForm.EditResubmitsPost | src/components/BlogForm.tsx:16-77 | Opening a post that has a date, a category and a non-empty list of clean image paths, and submitting it unchanged, sends every one of its fields back as it was. |
| BlogForm.RequestRoutesByCategory | src/components/BlogForm.tsx:76 | The API routes the form's post to the tutorials exactly when the form's category is the tutorial one. |
| BlogForm.SubmittedFieldsValidIffSlug | src/components/BlogForm.tsx:51-54 | For a form that passes the submit check, the API finds all required fields exactly when the slug is non-empty. |
| BlogForm.NonAsciiTitleRefused | src/components/BlogForm.tsx:30-35 | A new post whose title has no ASCII letter or digit gets no slug, and its create is refused for a missing field. |
| BlogForm.UnorderedTutorialNotLast | src/components/BlogForm.tsx:57-61 | A confirmed unordered tutorial, created into a sorted file of positively ordered tutorials, is written first. |
| Navbar.CurrentLocale | src/components/Navbar.tsx:13-14 | The locale is English exactly when the path starts with `/en`. |
| Navbar.NavHrefs | src/components/Navbar.tsx:18-24 | Five links: home (`/en` or `/`), then `/<locale>/<section>` for galleries, blog, about, contact. |
| Navbar.NavHrefsKeepLanguage | src/components/Navbar.tsx:18-24 | Every link is English exactly when the current page is. |
| Navbar.LanguageSwitchUrl | src/components/Navbar.tsx:27-38 | `/` switches to `/en`. An English path loses its first `/en`, becoming `/` when nothing is left. A `/zh` path has it replaced by `/en`. Any other path switches to `/en`. |
| Navbar.SwitchFromChineseIsEnglish | src/components/Navbar.tsx:28-37 | From any non-English page the switch leads to an English page. |
| Navbar.SwitchFromEnglish | src/components/Navbar.tsx:31-33 | `/en` + a rest switches to the rest (or `/`), which is not English unless the rest itself starts with `/en`. |
| Navbar.SwitchTwiceFromChinese | src/components/Navbar.tsx:31-36 | Switching twice from `/zh` + a rest lands on the rest (or `/`). |
| Navbar.SwitchFromUnprefixedChinese | src/components/Navbar.tsx:37 | A page other than `/` with neither prefix switches to the English home. |
| Navbar.SwitchStripsBareEnPrefix | src/components/Navbar.tsx:31-32 | Any path `/en` + a rest not starting with `/`, such as `/enquiry`, counts as English and switches to the bare rest, which has no leading slash. |
| AdminPage.FilterPosts | src/app/admin/page.tsx:55-60 | Any filter other than `blog` or `tutorial` (including `all`) shows the list unchanged, and no filter lengthens it. |
| AdminPage.FilterPostsMember | src/app/admin/page.tsx:57-58 | `blog` keeps exactly the posts of the blog category, and `tutorial` exactly those of the tutorial category. |
| AdminPage.FilterPostsConcat | src/app/admin/page.tsx:55-60 | Filtering distributes over concatenation, so the kept posts keep their order. |
| AdminPage.ButtonCounts | src/app/admin/page.tsx:93-113 | Each button's count is the length of the list its filter shows. |
| AdminPage.CategoryCountsBounded | src/app/admin/page.tsx:103-113 | The two category counts add up to at most the total. |
| AdminPage.RemoveSlug | src/app/admin/page.tsx:43 | After a delete no listed post has the deleted slug, and the list is no longer. |
| AdminPage.RemoveSlugMember | src/app/admin/page.tsx:43 | A post stays exactly when it was listed and has another slug. |
| AdminPage.RemoveSlugConcat | src/app/admin/page.tsx:43 | Removal distributes over concatenation, so the remaining posts keep their order. |
| AdminPage.RemoveAbsentSlug | src/app/admin/page.tsx:43 | Deleting a slug no listed post has leaves the list unchanged. |
| AdminPage.RemoveUniqueSlug | src/app/admin/page.tsx:43 | With unique slugs, deleting the `i`-th post's slug removes exactly that post. |
| AdminPage.CreatedPostBadge | src/app/admin/page.tsx:147 | A created post shows the lesson badge exactly when the request gave a non-zero order and either named the tutorial category or named none and was routed to the tutorials. |
| Mappings.Lookup | fix_remaining_chinese_names.py:41-42 | Lookup fails exactly when the name is not a key, and otherwise finds an entry of the table for that key. |
| Mappings.LookupUnique | fix_remaining_chinese_names.py:41-42 | With distinct keys, looking up an entry's key gives that entry's value. |
| Mappings.ReplaceEachPresentSame | fix_remaining_chinese_names.py:45-48 | Testing `k in s` before replacing gives the same result as replacing unconditionally. |
| Mappings.ReplaceEachConcat | fix_chinese_filenames.py:229-231 | A pass over two tables is the pass over the first followed by the pass over the second: keys are applied in table order. |
| Mappings.ReplaceEachNoKey | fix_chinese_filenames.py:229-231 | A pass in which no key occurs leaves the name unchanged. |
| Mappings.FirstMatch | rename_folders.py:47-50 | The index found is that of the first entry whose key occurs in the URL; there is none exactly when no key occurs. |
| Mappings.FirstMatchRewrite | rename_folders.py:47-50 | A URL containing no key is unchanged. When key `i` occurs and no earlier key does, the result is the URL with every occurrence of key `i` replaced by its value. |
| Mappings.FirstMatchAt | rename_folders.py:47-50 | An entry whose key occurs, with no occurring key before it, is the one the search stops at. |
| RemainingNames.Sanitize | fix_remaining_chinese_names.py:38-55 | A name that is a key becomes its value. Any other name has every key replaced in table order and is then cleaned up. |
| RemainingNames.NameTableKeysUnique | fix_remaining_chinese_names.py:12-36 | The keys of the script's table are distinct. |
| RemainingNames.SanitizeWholeName | fix_remaining_chinese_names.py:41-42 | Each whole name of the table becomes exactly its listed value, with no cleanup. |
| RemainingNames.Cleanup | fix_remaining_chinese_names.py:51-53 | A cleaned-up name has no `--` and no dash at either end. |
| RemainingNames.CleanupShape | fix_remaining_chinese_names.py:51-53 | A cleaned-up name has no parentheses, blanks or `_`, no `--`, and no dash at either end. |
| RemainingNames.SanitizeShape | fix_remaining_chinese_names.py:44-55 | A name that is not a key comes out in that shape. |
| RemainingNames.RenamePlan | fix_remaining_chinese_names.py:57-100 | Each planned rename changes the name and renames it to its sanitized form; there are no more renames than names. |
| RemainingNames.RenamePlanMember | fix_remaining_chinese_names.py:65-98 | A name is renamed exactly when it is listed and sanitizing changes it. |
| ChineseFilenames.SplitExt | fix_chinese_filenames.py:225-226 | Stem and extension concatenate to the name. The extension is empty or a dot followed by non-dot, non-slash characters. |
| ChineseFilenames.SplitExtAt | fix_chinese_filenames.py:225-226 | The split is at the last dot exactly when that dot is after the last slash and a non-dot precedes it in the last component; otherwise the extension is empty. |
| ChineseFilenames.SplitExtOf | fix_chinese_filenames.py:225-226 | Splitting a stem with a non-dot in its last component, followed by an extension, gives that stem and extension back. |
| ChineseFilenames.SplitExtInDir | fix_chinese_filenames.py:259 | Splitting a path in a directory splits its file name and keeps the directory on the stem. |
| ChineseFilenames.EnglishFilename | fix_chinese_filenames.py:224-242 | The new name ends with the original extension. Before it stands the cleaned stem with every table word replaced, or `image-<n>` when that is empty or still has CJK characters. |
| ChineseFilenames.CjkTableSkipsPlainStem | fix_chinese_filenames.py:229-231 | With a table whose keys begin with a CJK character, as all keys of the script's table do, a stem without CJK characters passes the word replacements unchanged. |
| ChineseFilenames.WordTableKeysStartCjk | fix_chinese_filenames.py:14-222 | Every key of the script's word table begins with a CJK character. |
| ChineseFilenames.WordTableSkipsPlainStem | fix_chinese_filenames.py:229-231 | The script's word table leaves a stem without CJK characters unchanged. |
| ChineseFilenames.CleanStem | fix_chinese_filenames.py:234-236 | A cleaned stem has no `--` and no dash at either end. |
| ChineseFilenames.CleanStemShape | fix_chinese_filenames.py:234-236 | A cleaned stem has only word characters, `-` and `.`, no `--`, and no dash at either end. |
| ChineseFilenames.FallbackShape | fix_chinese_filenames.py:239-240 | The fallback stem is `image-` followed by a decimal number below 10000; it is usable and has no slash. |
| ChineseFilenames.EnglishStemShape | fix_chinese_filenames.py:234-240 | The new stem is the fallback or a usable, tidy stem of word characters, `-` and `.`. |
| ChineseFilenames.EnglishStemPlain | fix_chinese_filenames.py:234-240 | The new stem is non-empty, has no CJK character and has no slash. |
| ChineseFilenames.SelectedExtension | fix_chinese_filenames.py:250-252 | A selected file name splits into everything before `.webp` and `.webp`. |
| ChineseFilenames.SelectedNewName | fix_chinese_filenames.py:250-252 | The new name of a selected file ends with `.webp` and has neither a CJK character nor a slash. |
| ChineseFilenames.Probe | fix_chinese_filenames.py:256-261 | The first candidate is the path itself, and every later one is longer than it. |
| ChineseFilenames.ProbeInjective | fix_chinese_filenames.py:256-261 | The candidate paths `base`, `base-1`, `base-2`, … are pairwise different. |
| ChineseFilenames.ProbeInDir | fix_chinese_filenames.py:253-260 | Every candidate of a path in a directory is a candidate of the file name in that directory. |
| ChineseFilenames.ChooseTarget | fix_chinese_filenames.py:255-261 | The chosen path is the first candidate not in use: every earlier candidate exists and the chosen one does not. |
| ChineseFilenames.NewPathProbePlain | fix_chinese_filenames.py:250-261 | Every candidate path for a selected file is its directory followed by a candidate of its English name, and none has a CJK character in its last component. |
| ChineseFilenames.MoveTarget | fix_chinese_filenames.py:250-261 | A selected file goes to its directory followed by the `k`-th candidate of its English name, where every earlier candidate exists and the chosen one does not. The target has no CJK characters in its name; the source has some. |
| ChineseFilenames.RenameFiles | fix_chinese_filenames.py:244-273 | Every recorded key is the URL of a selected file. Its URL maps to that of a candidate of the file's English name in its directory, every earlier candidate of which still exists at the end. Every recorded URL names an existing path that was not there before and has no CJK characters. Recorded URLs are pairwise different. Files without CJK characters all remain. When the files are a listing of the tree, every selected file is recorded. |
| ChineseFilenames.RenamedValuesNotKeys | fix_chinese_filenames.py:263-268 | No new URL of a rename pass is an old one. |
| ChineseFilenames.RemapUrl | fix_chinese_filenames.py:288-289 | A renamed URL becomes its new URL, and any URL comes out either unchanged or as one of the new URLs. |
| ChineseFilenames.RemapUrlChanges | fix_chinese_filenames.py:288-289 | A URL changes exactly when it is a key of the rename map with a different value, and then becomes that value. |
| ChineseFilenames.RemapUrlIdempotent | fix_chinese_filenames.py:284-328 | When no new URL is an old one, remapping twice equals remapping once. |
| ChineseFilenames.RemapTutorial | fix_chinese_filenames.py:284-297 | A tutorial's cover and image URLs are remapped, the image list keeps its length and presence, and every other field is unchanged. |
| ChineseFilenames.RemapPhoto | fix_chinese_filenames.py:318-328 | A photo's URL and thumbnail URL are remapped; every other field is unchanged. |
| ChineseFilenames.RemapGallery | fix_chinese_filenames.py:309-328 | A gallery's cover is remapped, each photo is remapped in place, and every other field is unchanged. |
| ChineseFilenames.UpdateJsonFiles | fix_chinese_filenames.py:275-332 | Each tutorial and gallery is remapped in place; none is added, dropped or moved. |
| ChineseFilenames.RemapTutorialUntouched | fix_chinese_filenames.py:284-297 | A tutorial none of whose URLs was renamed is left as it is. |
| ChineseFilenames.UpdateJsonIdempotent | fix_chinese_filenames.py:275-332 | When no new URL is an old one, running the update a second time changes nothing. |
| FolderRename.UpdateTutorial | rename_folders.py:44-57 | The cover and each image URL get the first-match folder rewrite, the image list keeps its length and presence, and every other field is unchanged. |
| FolderRename.UpdateTutorials | rename_folders.py:44-57 | Every tutorial is updated in place; none is added, dropped or moved. |
| FolderRename.UpdateTutorialUntouched | rename_folders.py:44-57 | A tutorial none of whose URLs names a lesson folder is left as it is. |
| FolderRename.RewriteFirstFolder | rename_folders.py:47-50 | A URL naming the `i`-th folder and none before it has every occurrence of that folder name replaced by its new name. |
| FolderRename.FolderTableKeysCjk | rename_folders.py:9-18 | Every lesson folder name contains a CJK character. |
| FolderRename.FolderRewriteSkipsPlainUrl | rename_folders.py:47-50 | A URL without CJK characters names no lesson folder and is left unchanged. |
| FolderRename.PlainTutorialUntouched | rename_folders.py:44-57 | A tutorial whose cover and image URLs have no CJK characters is left as it is. |

## Left out

- File and JSON I/O: reads are `Option` inputs and writes a `bool` outcome. JSON parsing beyond "the body parses to a value other than `null`" is not modelled. Neither are the exact HTTP bodies of the responses.
- Dates: `new Date().toISOString()` ("today") is a parameter. `new Date(d).getTime()` is an integer-valued parameter, so invalid dates (NaN comparisons) are not modelled.
- `parseInt`: the form's order field and the request's `order` are integers or absent.
- Unicode: `toLowerCase` is ASCII-only, and the form's slug pattern keeps ASCII `\w`. Python's Unicode `\w` is a parameter `isWord`.
- Python's `hash` is a parameter. The fallback number is taken `% 10000`, which for a positive divisor agrees with Python's modulo.
- The update, delete and get-by-slug handlers are not part of this model.
- A data file that parses to JSON other than an array (for example `null` or `{}`): `.map` in GET
  and `.some` in POST then throw, and the handler answers 500 without writing. Such files are not
  modelled: a read is either a list of posts or a failure, which the read functions turn into `[]`.
  So the GET error branch is left out with them.
- Concurrent writers and the lost update between the read and the write of a JSON file: the model is sequential.
- `fetch`, `alert`, `confirm`, `router.push` and rendering: the user's answer to the confirmation is a `bool` input, and the sent request is the result.
- `os.walk`, `shutil.move` and `os.rename`:
  - the rename pass takes the walked files as a list and the tree as a set of paths;
  - a move fails only when its source is gone;
  - failures other than a missing source, such as permissions or cross-device moves, are not modelled.
- `os.path.relpath` and `os.sep`: paths are already relative to `public` and use `/`.
- `rename_folders.rename_folders`, the folder moves: they are pure file-system operations.
- `fix_remaining_chinese_names.py` `update_json_references` (lines 102-136) and the `os.walk` traversal of its rename loop: only the rename decision per name (`RemainingNames.RenamePlan`) is modelled.
- JSON records missing the `featuredImageUrl`, `coverPhotoUrl`, `url` or `thumbnailUrl` key: these fields are always present in the record types, as the site's types declare them.
- Middleware, internationalisation configuration, the sitemap and the other pages and scripts are not part of this model.
- ChineseFilenames.RenameFiles: states that every selected file is renamed only under the assumption that the files are exactly a listing of the tree. Without that assumption it states only which path each recorded file went to and the freshness, distinctness and keep-the-rest properties. That each candidate tried before the chosen one existed at the time of the move is stated per move by `ChineseFilenames.MoveTarget`; the pass states that those candidates still exist at the end.
- StableSort.Sort: its own contract states only the length, which keeps the cost of every proof that uses it low. Ordering, permutation and stability are proved once in `StableSort.SortSortsAndPermutes` and `StableSort.SortIsStable`.
