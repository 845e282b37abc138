# Content Generator: a Dafny model of `wp demo populate`

Content Generator is a WordPress plugin that fills a demo site. Its WP-CLI command
`wp demo populate --<post_type>=<n> --from=<category> [--with-images=<tier>]` does the
following:
- it reads the titles of a Wikipedia category;
- it hands them out to the requested post types in map order;
- for each title it fetches the article's intro text and categories, then inserts a post;
- for a share of the posts it downloads a featured image, chosen at random from a Pexels feed.

The repository carries two versions of the command. The current one is lib/cli.php with
`Demo_Gen_API` (api.php). The older one is demo-generator.cli.php, with its own private
copies of the API methods. They differ in a few places:
- the word filter on category labels;
- the download cache of `set_image`;
- what `set_image` returns for an empty file;
- whether the Pexels feed is fetched when the chance is zero.

The model covers both versions, distinguished by a `legacy` flag. Its modules:

- `Php`: the PHP built-ins the code relies on, written out.
  - `str_replace` with one search string, as a left-to-right scan whose replacements do not overlap;
  - `str_word_count` in its counting form;
  - `basename` on POSIX paths;
  - `empty()` on strings;
  - `shuffle`, driven by explicit random picks.
- `Json`: a decoded JSON document as `json_decode` leaves it, with PHP's `isset`, truthiness, `(array)` cast,
  `foreach` and `array_pop`.
- `Wxr`: `dcg_wxr_cdata` (lib/wxr.php).
  - It is proved against an independent reader of CDATA sections, following section 2.7 of XML 1.0: the
    reader recovers the text exactly, and the wrapping is injective.
- `WikiApi`: the response interpreters.
  - `get_article_list`, `get_article_response`, `get_article_text` and `get_article_cats`, the latter with
    the category term table;
  - `parse_image_chance`, `get_image_list`, and both versions of `set_image`.
- `Populate`: the run as pure functions over a `Site` state.
  - The quota map, the allocation at the head of each turn, and one article's page, text, categories,
    insertion and featured image;
  - the whole outer loop, with the properties the command promises about quotas, the image pool, the
    warnings and the featured images.
- `Command`: the command's loops as imperative code. A `Populator` class holds the command's local state as
  fields; each method is proved to move that state exactly as the matching `Populate` function says.
  - `$post_types`, `$post_type`, `$image_list` and the reused `$post`;
  - the term table and the download cache it writes through the CMS.

All outside effects become parameters, and the model elides none of them silently:
- HTTP answers (`Http`) and the feed (`Feed`);
- the shuffle's picks;
- a per-title `Oracle` holding the page response, `random_date`, the outcome of `wp_insert_post`,
  `mt_rand(0, 100)`, the `array_rand` choice, `download_url` and `media_handle_sideload`.

Two places where the code and its documentation diverge follow the code:
- The current version skips `set_image` when the chance is zero only for the feed. A draw of 0 still passes
  `mt_rand(0, 100) <= 0`, so such a post reports the `empty-file` error from an empty pool. This is stated
  as `Populate.PopulateWithoutImages`.
- `--with-images` given without a value is PHP `true`. `switch` compares that loosely equal to the first
  case, so the chance is 100, not the 75 that an absent option gets.

## Model

| member | source | states |
|---|---|---|
| Php.IndexOfSpec | lib/wxr.php:15 | the scan position is an occurrence of the search string, no earlier one exists, and it is the length exactly when there is none |
| Php.ReplaceFirst | lib/wxr.php:15 | `str_replace` leaves a string without the search string unchanged, and otherwise replaces the leftmost occurrence and continues after it |
| Php.CountFirst | lib/wxr.php:15 | the replacements counted are the leftmost occurrence plus those in the text after it, so they never overlap |
| Php.ReplaceAbsent | api.php:133 | a label without `Category:` is unchanged, with no replacement made |
| Php.ReplaceLength | lib/wxr.php:15 | each replacement changes the length by the difference of the two strings' lengths |
| Php.StrWordCount | api.php:135 | a string never has more words than characters |
| Php.RunsSeparated | api.php:135 | a character outside words splits the words on either side of it |
| Php.RunsNone | api.php:135 | a string without letters, `'` or `-` has no word |
| Php.RunsOne | api.php:135 | a run of word characters is one word |
| Php.StripTrailingSlashesSpec | api.php:273 | `basename` first drops only trailing slashes, and no slash ends what is left |
| Php.AfterLastSlashSpec | api.php:273 | `basename` then keeps the slash-free end of the path, preceded by a slash unless it is the whole path |
| Php.BasenameSpec | api.php:273 | a basename holds no slash and is no longer than the path |
| Php.BasenameOfJoin | api.php:305 | the cache key of `dir/name` is `name` |
| Php.Shuffle | lib/cli.php:95 | the shuffled titles are a permutation of the returned ones, whatever the random picks |
| Wxr.Cdata | lib/wxr.php:11-18 | the result starts with `<![CDATA[` and ends with `]]>` |
| Wxr.CdataPlain | lib/wxr.php:15 | text without `]]>` is wrapped verbatim |
| Wxr.SectionsCloseFree | lib/wxr.php:15 | the contents an XML reader takes from a run of CDATA sections never hold `]]>` |
| Wxr.SectionsOfWrapped | lib/wxr.php:15 | the replaced text, wrapped, reads as the pieces of the input cut after each `]]` of a `]]>` |
| Wxr.PiecesConcat | lib/wxr.php:15 | those pieces put together give the input back |
| Wxr.CdataRoundTrip | lib/wxr.php:11-18 | the wrapped string is a valid run of CDATA sections whose contents concatenate to the input |
| Wxr.CdataInjective | lib/wxr.php:11-18 | different strings are wrapped differently |
| Wxr.CdataLength | lib/wxr.php:15 | every `]]>` adds 12 characters and the wrapper 12 more |
| WikiApi.PluckEmpty | api.php:47-48 | `wp_list_pluck` yields nothing exactly when no member is an object or an array |
| WikiApi.PluckAll | api.php:47 | when every member is an object or an array, it yields one entry per member, in order: its `title` |
| WikiApi.ArticleList | api.php:25-54 | transport errors pass through; `empty-body` exactly for a falsy body; a success is the non-empty plucked list of titles of an array of members |
| WikiApi.ArticleListEmpty | api.php:46-53 | a truthy body gives `empty-list` exactly when `categorymembers` is missing, not an array, or holds no object or array to pluck |
| WikiApi.ArticleResponse | api.php:63-85 | the decoded body is returned exactly when it is truthy; `empty-body` otherwise; transport errors pass through |
| WikiApi.ArticleText | api.php:97-111 | `not-found` exactly for the missing-page sentinel `-1`; `empty-article` exactly when there are no pages or the last page has no extract; otherwise the last page's extract |
| WikiApi.CatsErrors | api.php:122-149 | `not-found` exactly for the sentinel, `empty-article` exactly when the last page has no categories, no other error, and neither touches the term table |
| WikiApi.CatsOk | api.php:130-144 | one ID per kept label in input order, each being that label's term; the table keeps its entries and gains exactly the kept labels; without the word filter every label gives an ID |
| WikiApi.ArticleCats | api.php:122-149 | the method with its foreach computes `get_article_cats` as specified |
| WikiApi.NumericLabel | api.php:133-135 | a numeric category title becomes its decimal text, which has no word and is always imported |
| Json.IntText | api.php:133 | PHP's text of an integer: a minus sign exactly for a negative number, then at least one decimal digit |
| Json.DigitsRoundTrip | api.php:133 | reading the decimal digits back gives the number |
| Json.IntTextInjective | api.php:133 | different integers are written differently, so distinct numeric titles are distinct terms |
| WikiApi.CollectTerms | api.php:132-143 | the foreach over the categories is the fold of one label step over the labels |
| WikiApi.TermFor | api.php:133-142 | a kept label known to the table gives its ID; an unknown one is inserted under the next ID; a long label changes nothing |
| WikiApi.CollectKeeps | api.php:138-141 | collecting never changes an existing term |
| WikiApi.CollectKeys | api.php:135-141 | the table gains exactly the labels the filter keeps |
| WikiApi.CollectIds | api.php:142 | the IDs follow the kept labels in order |
| WikiApi.FilterKept | api.php:135-137 | a label is imported exactly when it occurs and has at most four words |
| WikiApi.FilterAll | demo-generator.cli.php:290-297 | the older version imports every label |
| WikiApi.AllFilteredIsEmptyList | api.php:130-144 | a page whose every label has more than four words yields an empty list, not an error, and inserts nothing |
| WikiApi.ParseImageChance | api.php:170-191 | the chance is one of 0, 25, 50, 75, 100, and a bare `--with-images` gives 100 |
| WikiApi.TierRoundTrip | api.php:172-189 | naming each tier gives back its chance |
| WikiApi.DefaultChance | api.php:185-188 | 75 exactly when the option is absent or names no other tier |
| WikiApi.ItemQuantity | api.php:212 | the item count is the smaller of the feed's size and the maximum, or the feed's size when the maximum is 0 |
| WikiApi.FirstItems | api.php:216 | the items taken are a prefix of the feed, of the requested length when it is positive |
| WikiApi.ImageListOf | api.php:200-229 | feed errors pass through; `short-list` exactly when the feed has fewer items than requested; never more images than requested |
| WikiApi.ImagesOf | api.php:219-223 | every image comes from an item with a permalink, one per item when all have one |
| WikiApi.FullImageList | api.php:211-223 | with enough linked items the list has exactly the requested number of images |
| WikiApi.ImageList | api.php:200-229 | the method with its foreach computes `get_image_list` as specified |
| WikiApi.SetImage | api.php:265-310 | `empty-file` for an empty file; otherwise an attachment exactly for a cached basename or a download and sideload that both succeed, its ID being the cached one or the sideloaded one and stored under the basename; a failure is the download's error, else the sideload's, and keeps the cache; the cache changes only after a successful download and sideload of an uncached file |
| WikiApi.SetImageKeeps | api.php:271-306 | the cache gains at most the file's basename and keeps every other entry |
| WikiApi.CacheHitIgnoresOracles | api.php:272-276 | a cached basename returns its ID without downloading |
| WikiApi.SharedBasename | api.php:273-305 | two URLs with one basename share one attachment |
| WikiApi.SetImageLegacy | demo-generator.cli.php:419-445 | the older `set_image` returns nothing exactly for an empty file, and an attachment, the sideloaded ID, exactly when both steps succeed; otherwise the download's error, else the sideload's |
| WikiApi.LegacyAgreesOnFirstDownload | api.php:265-310 | with an empty cache both versions agree on every non-empty file |
| Populate.FirstPositive | lib/cli.php:111-116 | the scan stops inside the map only at a positive count |
| Populate.FirstPositiveIs | lib/cli.php:111-116 | it stops at `k` exactly when no count before `k` is positive |
| Populate.ConsumeSpec | lib/cli.php:111-116 | one turn decrements the first positive count, leaves every other entry, and changes nothing when none is positive |
| Populate.ConsumeOne | lib/cli.php:113 | while quotas remain, a turn uses up exactly one |
| Populate.ConsumeNSum | lib/cli.php:110-116 | after `n` titles, no more than the total, `n` quota units are used and no count is negative |
| Populate.AllocationBlocks | lib/cli.php:110-116 | the titles go to the post types in map order, each receiving its quota as one block, and any surplus title goes to the last post type |
| Populate.AllocationIdle | lib/cli.php:111-116 | once all counts are zero every further title keeps the last post type and the quotas stay |
| Populate.BlocksCount | lib/cli.php:110-116 | every requested post type receives exactly its quota |
| Populate.Requested | lib/cli.php:50-62 | no more quotas than public post types |
| Populate.RequestedQuotas | lib/cli.php:50-62 | every quota is its option's value, and exactly the public types with an option have one |
| Populate.RequestedDistinct | lib/cli.php:50-62 | distinct public post types give quotas with distinct post types, so `Populate.BlocksCount` applies to the run's own quotas |
| Populate.ThemeWarnings | lib/cli.php:54-60 | no more warnings than public post types |
| Populate.ThemeWarningsFor | lib/cli.php:54-60 | a theme warning is issued exactly for a public type with an option when images are wanted and the theme does not support that type |
| Populate.Attach | lib/cli.php:156-161 | attaching an image touches only the pool, the used images, the cache and the events |
| Populate.AttachSpec | lib/cli.php:157-160 | the file attached is the entry at the picked key, and exactly that entry leaves the pool and joins the used images; the attachment is reported; the download cache is the one `set_image` leaves for that file; an empty pool stays empty and reports `empty-file` |
| Populate.Insert | lib/cli.php:148-161 | insertion leaves the quotas and the pool state alone; the run ends exactly when the insertion fails, and then only the fatal error is added; on success one more event, a featured image, follows exactly when the pool is usable and the draw is within the chance, and without it only the post with its new ID is reported |
| Populate.InsertSpec | lib/cli.php:148-161 | the pool only loses what is used; the insertion is recorded with its new ID before any image, and an attached image is recorded for that ID with the attachment and the download cache `set_image` gives for the picked file; without an image the cache stays |
| Populate.Prepare | lib/cli.php:118-122 | a failed page request skips the title with exactly that warning; the article is ready exactly when the page was read and its body is ready; reading never touches the quotas, pool or cache |
| Populate.PrepareBody | lib/cli.php:124-143 | missing text skips the title with exactly that warning; the article is ready exactly when it has text and, for a post type of the category taxonomy, categories; a ready post holds the page's text, the title, the allocated post type and the date; the term table changes only for a ready article of a category post type, to what `get_article_cats` left; the quotas, pool and cache stay, a ready article adds no event |
| Populate.Categorize | lib/cli.php:136-143 | an error of `get_article_cats` skips the title with exactly that warning, and the article is ready exactly when it has none, with the term table and next term ID that `get_article_cats` left; the quotas, pool and cache stay |
| Populate.Categorized | lib/cli.php:138-142 | applying the outcome of `get_article_cats`: an error is exactly its warning and a skip, ready exactly without one, and then `post_category` of the post becomes the IDs and the term table and next ID become those the outcome carries; the quotas, pool and cache stay |
| Populate.PrepareCategory | lib/cli.php:136-143 | `post_category` and the term table change only for post types of the category taxonomy with a ready article, and then to this article's IDs and the table `get_article_cats` left |
| Populate.Article | lib/cli.php:118-161 | one article leaves the quotas and pool state alone, and ends the run exactly when it was ready and its insertion failed |
| Populate.ArticleMissingPage | lib/cli.php:118-128 | a page the encyclopedia does not have adds exactly a `not-found` warning, with no post and no image |
| Populate.ArticleFatal | lib/cli.php:148-153 | a ready article whose insertion fails halts the run with only that fatal error added |
| Populate.ArticleSpec | lib/cli.php:118-161 | one article only uses pool entries and adds article events |
| Populate.Fetch | lib/cli.php:102-108 | when the list is pulled, the pool is the image list exactly when it is not an error, and an error adds exactly its warning; no other case adds an event; in the current version chance 0 leaves the pool empty and usable; the quotas, post, term table and cache stay |
| Populate.Shortfall | lib/cli.php:97-99 | a warning with the number found exactly when fewer titles than requested came back; nothing else changes |
| Populate.InsertEmptyPool | lib/cli.php:156-160 | with an empty pool the only image reported is `empty-file` |
| Populate.InsertUnusablePool | lib/cli.php:156 | after an image-list error no image is attached |
| Populate.PopulateListError | lib/cli.php:89-92 | a failed article list ends the run with that error before anything else |
| Populate.ArticleEmptyPool | lib/cli.php:118-161 | the same for a whole article |
| Populate.ArticleUnusablePool | lib/cli.php:118-161 | the same for a whole article |
| Populate.InsertedPost | lib/cli.php:129-150 | a post is reported as inserted exactly when the article was read and `wp_insert_post` succeeded, and it carries the new ID, the page's text, the title, the allocated post type and the date |
| Populate.TurnLabel | lib/cli.php:110-150 | a turn records the post type allocated to its title, and the post it inserts has that type |
| Populate.InsertedCategory | lib/cli.php:136-148 | an inserted post of another post type carries the previous article's categories, one of a category type its own |
| Populate.AttachTest | lib/cli.php:156-158 | with a usable pool, an image is attached exactly when the draw is within the chance, for every chance: always at 100 or more, never below 0, at 0 exactly on a draw of 0; it is reported for the ID just inserted |
| Populate.LoopQuotas | lib/cli.php:110-116 | every title the loop reaches consumes one quota turn, whatever becomes of its article |
| Populate.LoopLabels | lib/cli.php:110-132 | every title the loop reaches is recorded with the post type the allocation gives it, in order |
| Populate.PopulateLabels | lib/cli.php:89-132 | unless the run ends, the returned titles receive, in order, the allocation of the quotas, which `Populate.AllocationBlocks` shows to be one block per post type in map order with any surplus for the last post type |
| Populate.LoopPool | lib/cli.php:157-160 | what is left in the pool and the files attached so far (the used images, each one the attached entry by `Populate.AttachSpec`) together keep the pool's contents, so each entry is attached at most once; the loop only adds article events |
| Populate.LoopEmptyPool | lib/cli.php:110-164 | with an empty pool every image reported is `empty-file` |
| Populate.LoopUnusablePool | lib/cli.php:110-164 | with an unusable pool no image is attached |
| Populate.PopulateShortfall | lib/cli.php:97-99 | the run reports a shortfall exactly when fewer titles came back than the quotas add up to |
| Populate.PopulateQuotas | lib/cli.php:110-116 | unless the run is ended, the quotas are consumed once per returned title |
| Populate.PopulateWithoutImages | lib/cli.php:102-108 | `--with-images=none` fetches no feed, so the pool stays empty and any image reported is `empty-file` |
| Populate.PopulateFeedError | lib/cli.php:105-107 | a failed image list means no featured image in the whole run |
| Populate.PopulatePool | lib/cli.php:157-160 | what is left in the pool plus what was used is exactly the fetched list |
| Command.CollectQuotas | lib/cli.php:50-62 | the collecting foreach yields the requested quotas, the theme warnings and the loop variable's last value |
| Command.AllocateHit | lib/cli.php:112-115 | a scan stopping at a positive count decrements that count and sets `$post_type` to it |
| Command.AllocateMiss | lib/cli.php:111-116 | a scan without a positive count changes no quota and leaves the last visited type |
| Command.Populator.constructor | lib/cli.php:34-86 | the state after the options are read and the quotas collected |
| Command.Populator.Allocate | lib/cli.php:111-116 | the allocating foreach moves the state as the allocation step says, recording the post type it leaves for this title |
| Command.Populator.ProcessArticle | lib/cli.php:118-163 | one title after the allocation moves the state as one article says |
| Command.Populator.PrepareArticle | lib/cli.php:118-122 | the page request step, as specified |
| Command.Populator.ReadText | lib/cli.php:124-143 | the text step, as specified |
| Command.Populator.ReadCategories | lib/cli.php:136-143 | the categories step, as specified |
| Command.Populator.ApplyCategories | lib/cli.php:138-142 | applying the categories' outcome, as specified |
| Command.Populator.InsertPost | lib/cli.php:148-161 | the insertion step, as specified |
| Command.Populator.AttachImage | lib/cli.php:156-161 | the featured image step, as specified |
| Command.Populator.SetImageOf | lib/cli.php:158 | `set_image` of either version, with the cache it leaves |
| Command.Populator.FetchImages | lib/cli.php:102-108 | pulling the image list, as specified |
| Command.Populator.ReportShortfall | lib/cli.php:97-99 | the shortfall warning, as specified |
| Command.Populator.RunTitles | lib/cli.php:110-164 | the outer foreach runs every title until a fatal error, as the loop function says |
| Command.Populator.Run | lib/cli.php:89-164 | the command after the quotas: article list, shuffle, shortfall, images, and the loop |

## Left out

- The network and JSON parsing are not modelled. `wp_remote_get`, `fetch_feed` and `json_decode` become given answers (`Http`, `Feed`, decoded `Json`).
- `get_image_from_url` is not modelled. Its regex scrape of a Pexels page becomes each feed item's `image`, and its errors are carried as strings in the list.
- The file-name regex in `set_image` is not modelled, since only `media_handle_sideload`'s outcome matters. `seems_utf8` / `utf8_encode` in `dcg_wxr_cdata` are not modelled either: the input is taken as already UTF-8.
- `random_date`, `mt_rand` and `array_rand` become oracle values, and the PHP `shuffle` becomes explicit picks. The clock and the random generator are not modelled.
- WP-CLI output is not modelled beyond the ordered `Event` log, and neither is the process exit of `WP_CLI::error` (modelled as `halted`). `Inserted` records the `wp_insert_post` call (lib/cli.php:148), which comes before the featured image. The "Created" line printed after the image (lib/cli.php:163) and `set_image`'s own progress lines are not separate events.
- The `--replace` deletion through `WP_CLI::launch_self` (lib/cli.php:64-72) is left out. It runs other commands.
- The `demo_gen_default_post` filter (`apply_filters`) is taken as the identity.
- The post status, author and ping fields are not modelled, since they never change.
- `term_exists` is taken as an exact lookup in the term table, and `wp_insert_term` as always succeeding with the next ID. WordPress's own slug matching and insertion errors are outside the plugin.
- Titles and option values are taken as given. A title is any decoded JSON value.
- Post-type counts are taken as integers. WP-CLI passes them uncast, so a bare flag (`--post`, PHP `true`, which the loop cannot decrement) or a non-numeric count is not modelled.
- A category title that is an array or an object is taken as the empty string. For an array, `str_replace` returns an array, which `str_word_count` rejects (a `TypeError` in PHP 8). For an object, `str_replace` itself fails: PHP 8 raises a `TypeError`, and PHP 7 cannot convert a `stdClass` to a string. Strings, integers, booleans and null are converted as PHP does.
- Pluck: follows `wp_list_pluck` of WordPress 6.2 and later, which skips members that are neither objects nor arrays. Earlier versions keep a null for them.
- JSON numbers are integers. Fractional numbers, which `json_decode` makes floats, are not modelled.
- Duplicate keys in decoded JSON objects become the first match; `json_decode` keeps the last.
- Where PHP 8 would raise a fatal error, the model follows PHP 7's warning-and-continue behaviour. Examples: `array_rand` on an empty list (the model gives it a null key), and `in_array` against `false`.
- lib/utilities.php and demo-generator.php are not part of this model.
- Php.StrWordCount: its contract bounds the count only. The properties about words are the three `Runs` lemmas.
- Populate.Requested: its contract bounds the length only. The content is `Populate.RequestedQuotas`.
- Populate.ThemeWarnings: its contract bounds the length only. The content is `Populate.ThemeWarningsFor`.
