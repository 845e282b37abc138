/** `Demo_Gen_API` (api.php) and the same private methods of the older command class
    (demo-generator.cli.php): how the plugin reads the encyclopedia's decoded responses,
    maps category labels to term IDs, builds the image list and downloads an image. */
module WikiApi {
  import opened Common
  import opened Php
  import opened Json

  /** What `wp_remote_get` followed by `json_decode` of the body yields: a transport error,
      or the decoded body (Null when the body is empty or not JSON). */
  datatype Http = Failure(error: Error) | Body(decoded: Json)

  // ---------------------------------------------------------------------------------------
  // get_article_list

  function Members(body: Json): Json
  {
    Prop(Prop(body, "query"), "categorymembers")
  }

  /** The members `wp_list_pluck` (WordPress 6.2 and later) takes a field from: objects and
      arrays; any other member is skipped with a notice. */
  predicate Pluckable(v: Json)
  {
    v.Obj? || v.Arr?
  }

  /** `wp_list_pluck($list, $field)`: the field of every object member, Null where it has
      none and for an array member (whose decoded keys are numeric), skipping the others. */
  function Pluck(items: seq<Json>, field: string): (r: seq<Json>)
    ensures |r| <= |items|
  {
    if items == [] then []
    else
      var last := items[|items| - 1];
      Pluck(items[..|items| - 1], field) + if Pluckable(last) then [Prop(last, field)] else []
  }

  /** Nothing is plucked exactly when no member is an object or an array. */
  lemma {:induction false} PluckEmpty(items: seq<Json>, field: string)
    ensures Pluck(items, field) == [] <==> forall i :: 0 <= i < |items| ==> !Pluckable(items[i])
    decreases |items|
  {
    if items != [] {
      var init := items[..|items| - 1];
      PluckEmpty(init, field);
      assert forall i :: 0 <= i < |init| ==> init[i] == items[i];
    }
  }

  /** When every member is an object or an array, one entry per member, in order. */
  lemma {:induction false} PluckAll(items: seq<Json>, field: string)
    requires forall i :: 0 <= i < |items| ==> Pluckable(items[i])
    ensures |Pluck(items, field)| == |items|
    ensures forall i :: 0 <= i < |items| ==> Pluck(items, field)[i] == Prop(items[i], field)
    decreases |items|
  {
    if items != [] {
      var init := items[..|items| - 1];
      assert forall i :: 0 <= i < |init| ==> init[i] == items[i];
      PluckAll(init, field);
    }
  }

  /** Nothing can be plucked from a member list: it is missing, not an array, or holds no
      object or array. */
  predicate NoTitles(members: Json)
  {
    !members.Arr? || forall i :: 0 <= i < |members.items| ==> !Pluckable(members.items[i])
  }

  /** `get_article_list` once the request is answered: the titles of the category's
      members, `empty-body` when the body decodes to nothing, `empty-list` when
      `categorymembers` is absent or not an array, or nothing can be plucked from it. */
  function ArticleList(response: Http): (r: Result<seq<Json>>)
    ensures response.Failure? ==> r == Err(response.error)
    ensures response.Body? ==> r.Ok? || r == Err(EmptyBody) || r == Err(EmptyList)
    ensures response.Body? ==> (r == Err(EmptyBody) <==> !Truthy(response.decoded))
    ensures r.Ok? ==>
      response.Body? && Members(response.decoded).Arr? &&
      r.value != [] && r.value == Pluck(Members(response.decoded).items, "title")
  {
    match response
    case Failure(e) => Err(e)
    case Body(body) =>
      if !Truthy(body) then Err(EmptyBody)
      else
        var members := Members(body);
        if members.Arr? && Pluck(members.items, "title") != [] then Ok(Pluck(members.items, "title"))
        else Err(EmptyList)
  }

  /** A truthy body gives `empty-list` exactly when nothing can be plucked from its
      member list. */
  lemma ArticleListEmpty(response: Http)
    requires response.Body? && Truthy(response.decoded)
    ensures ArticleList(response) == Err(EmptyList) <==> NoTitles(Members(response.decoded))
  {
    if Members(response.decoded).Arr? {
      PluckEmpty(Members(response.decoded).items, "title");
    }
  }

  // ---------------------------------------------------------------------------------------
  // get_article_response, get_article_text

  /** `get_article_response` once the request is answered. */
  function ArticleResponse(response: Http): (r: Result<Json>)
    ensures r.Ok? <==> response.Body? && Truthy(response.decoded)
    ensures r.Ok? ==> r.value == response.decoded
    ensures response.Failure? ==> r == Err(response.error)
    ensures response.Body? && !Truthy(response.decoded) ==> r == Err(EmptyBody)
  {
    match response
    case Failure(e) => Err(e)
    case Body(body) => if Truthy(body) then Ok(body) else Err(EmptyBody)
  }

  function Pages(body: Json): Json
  {
    Prop(Prop(body, "query"), "pages")
  }

  /** The API's missing-page sentinel: `pages` has an entry under the key `-1`. */
  predicate Missing(body: Json)
  {
    Prop(Pages(body), "-1") != Null
  }

  /** The page `array_pop` takes from `(array) $body->query->pages`: the last entry. */
  function LastPage(body: Json): Json
  {
    ArrayPop(CastToArray(Pages(body)))
  }

  /** `get_article_text`: the last page's non-null `extract`; `not-found` for the missing-page
      sentinel; `empty-article` when there are no pages or the last one has no extract. */
  function ArticleText(body: Json): (r: Result<Json>)
    ensures r == Err(NotFound) <==> Missing(body)
    ensures r.Ok? ==> LastPage(body).Obj? && r.value == Prop(LastPage(body), "extract") && r.value != Null
    ensures r.Err? ==> r.error == NotFound || r.error == EmptyArticle
    ensures r == Err(EmptyArticle) <==>
      !Missing(body) && (Pages(body) == Null || !LastPage(body).Obj? || Prop(LastPage(body), "extract") == Null)
  {
    var pages := Pages(body);
    if pages != Null then
      if Prop(pages, "-1") != Null then Err(NotFound)
      else
        var article := ArrayPop(CastToArray(pages));
        if article.Obj? && Prop(article, "extract") != Null then Ok(Prop(article, "extract"))
        else Err(EmptyArticle)
    else Err(EmptyArticle)
  }

  // ---------------------------------------------------------------------------------------
  // get_article_cats

  /** A category's label: its `title` with every `Category:` removed. */
  function Label(cat: Json): string
  {
    Replace(ToText(Prop(cat, "title")), "Category:", "")
  }

  /** A numeric category title is imported under its decimal text, which holds no word, so
      the word filter always keeps it. */
  lemma NumericLabel(cat: Json, n: int, skipLong: bool)
    requires Prop(cat, "title") == Num(n)
    ensures Label(cat) == IntText(n)
    ensures StrWordCount(Label(cat)) == 0 && Kept(Label(cat), skipLong)
  {
    var s := IntText(n);
    var p := if n < 0 then 1 else 0;
    assert !Contains(s, "Category:") by {
      forall j | 0 <= j <= |s| ensures !At(s, "Category:", j) {
        if At(s, "Category:", j) {
          AtHead(s, "Category:", j);
          assert false;
        }
      }
    }
    ReplaceAbsent(s, "Category:", "");
    var t := s[p..|s|];
    assert forall i :: 0 <= i < |t| ==> t[i] == s[p + i];
    RunsNone(t, false);
  }

  function Labels(cats: seq<Json>): (ls: seq<string>)
    ensures |ls| == |cats| && forall i :: 0 <= i < |cats| ==> ls[i] == Label(cats[i])
  {
    seq(|cats|, i requires 0 <= i < |cats| => Label(cats[i]))
  }

  /** Whether a label is imported: the api.php version skips labels of more than four
      words, the older version keeps every label. */
  predicate Kept(name: string, skipLong: bool)
  {
    !skipLong || StrWordCount(name) <= 4
  }

  /** The labels that are imported, in input order. */
  function Filter(labels: seq<string>, skipLong: bool): seq<string>
  {
    if labels == [] then []
    else
      var init := Filter(labels[..|labels| - 1], skipLong);
      if Kept(labels[|labels| - 1], skipLong) then init + [labels[|labels| - 1]] else init
  }

  /** The category term table (`term_exists` / `wp_insert_term`), the IDs collected so far,
      and the ID the next inserted term receives. */
  datatype Terms = Terms(ids: seq<int>, table: map<string, int>, next: int)

  /** One turn of the foreach of `get_article_cats`: a kept label known to the table
      gives its ID, an unknown one is inserted under the next ID; a skipped label changes
      nothing. */
  function Step(t: Terms, name: string, skipLong: bool): Terms
  {
    if !Kept(name, skipLong) then t
    else if name in t.table then Terms(t.ids + [t.table[name]], t.table, t.next)
    else Terms(t.ids + [t.next], t.table[name := t.next], t.next + 1)
  }

  /** The whole foreach over `labels`. */
  function Collect(labels: seq<string>, skipLong: bool, table: map<string, int>, next: int): Terms
  {
    if labels == [] then Terms([], table, next)
    else Step(Collect(labels[..|labels| - 1], skipLong, table, next), labels[|labels| - 1], skipLong)
  }

  datatype CatsOutcome = CatsOutcome(result: Result<seq<int>>, table: map<string, int>, next: int)

  /** `get_article_cats`, with the term table before and after: `not-found` for the
      missing-page sentinel, `empty-article` when there are no pages or the last page has no
      categories, and no change to the table on either error. */
  function Cats(body: Json, skipLong: bool, table: map<string, int>, next: int): (c: CatsOutcome)
  {
    if Pages(body) == Null then CatsOutcome(Err(EmptyArticle), table, next)
    else if Missing(body) then CatsOutcome(Err(NotFound), table, next)
    else
      var article := LastPage(body);
      if article.Obj? && Prop(article, "categories") != Null then
        var t := Collect(Labels(ForeachItems(Prop(article, "categories"))), skipLong, table, next);
        CatsOutcome(Ok(t.ids), t.table, t.next)
      else CatsOutcome(Err(EmptyArticle), table, next)
  }

  /** The two errors of `get_article_cats` and when each is reported. */
  lemma CatsErrors(body: Json, skipLong: bool, table: map<string, int>, next: int)
    ensures var c := Cats(body, skipLong, table, next);
      && (c.result == Err(NotFound) <==> Missing(body))
      && (c.result.Err? ==> c.table == table && c.next == next)
      && (c.result.Err? ==> c.result.error == NotFound || c.result.error == EmptyArticle)
      && (c.result == Err(EmptyArticle) <==>
            !Missing(body) && (Pages(body) == Null || !LastPage(body).Obj? || Prop(LastPage(body), "categories") == Null))
  {
  }

  /** `get_article_cats($body)`: the loop over the last page's categories. */
  method ArticleCats(body: Json, skipLong: bool, table: map<string, int>, next: int)
    returns (r: Result<seq<int>>, table': map<string, int>, next': int)
    ensures CatsOutcome(r, table', next') == Cats(body, skipLong, table, next)
  {
    var pages := Pages(body);
    if pages != Null {
      if Prop(pages, "-1") != Null {
        return Err(NotFound), table, next;
      }
      var article := ArrayPop(CastToArray(pages));
      if article.Obj? && Prop(article, "categories") != Null {
        var ids;
        ids, table', next' := CollectTerms(ForeachItems(Prop(article, "categories")), skipLong, table, next);
        return Ok(ids), table', next';
      }
    }
    return Err(EmptyArticle), table, next;
  }

  /** The foreach of `get_article_cats` over the categories `cats`. */
  method CollectTerms(cats: seq<Json>, skipLong: bool, table: map<string, int>, next: int)
    returns (ids: seq<int>, table': map<string, int>, next': int)
    ensures Terms(ids, table', next') == Collect(Labels(cats), skipLong, table, next)
  {
    ids, table', next' := [], table, next;
    var labels := Labels(cats);
    var i := 0;
    while i < |cats|
      invariant 0 <= i <= |cats|
      invariant Collect(labels[..i], skipLong, table, next) == Terms(ids, table', next')
    {
      CollectNext(labels, i, skipLong, table, next);
      ids, table', next' := TermFor(labels[i], skipLong, ids, table', next');
      i := i + 1;
    }
    assert labels[..i] == labels;
  }

  /** One turn of that foreach: the ID of a kept label, looked up or inserted. The loop body
      as statements; `Step` is the function it is proved to compute. */
  method TermFor(name: string, skipLong: bool, ids: seq<int>, table: map<string, int>, next: int)
    returns (ids': seq<int>, table': map<string, int>, next': int)
    ensures Terms(ids', table', next') == Step(Terms(ids, table, next), name, skipLong)
  {
    ids', table', next' := ids, table, next;
    if Kept(name, skipLong) {
      if name in table {
        ids' := ids + [table[name]];
      } else {
        ids' := ids + [next];
        table' := table[name := next];
        next' := next + 1;
      }
    }
  }

  lemma CollectNext(labels: seq<string>, i: nat, skipLong: bool, table: map<string, int>, next: int)
    requires i < |labels|
    ensures Collect(labels[..i + 1], skipLong, table, next) == Step(Collect(labels[..i], skipLong, table, next), labels[i], skipLong)
  {
    TakeNext(labels, i);
    CollectAppend(labels[..i], labels[i], skipLong, table, next);
  }

  lemma TakeNext<T>(s: seq<T>, i: nat)
    requires i < |s|
    ensures s[..i + 1] == s[..i] + [s[i]]
  {
  }

  lemma CollectAppend(labels: seq<string>, name: string, skipLong: bool, table: map<string, int>, next: int)
    ensures Collect(labels + [name], skipLong, table, next) == Step(Collect(labels, skipLong, table, next), name, skipLong)
  {
    assert (labels + [name])[..|labels|] == labels;
  }

  lemma StepKeeps(t: Terms, name: string, skipLong: bool)
    ensures var t' := Step(t, name, skipLong);
      forall l :: l in t.table ==> l in t'.table && t'.table[l] == t.table[l]
  {
  }

  /** Collecting never changes an entry already in the table. */
  lemma {:induction false} CollectKeeps(labels: seq<string>, skipLong: bool, table: map<string, int>, next: int)
    ensures var t := Collect(labels, skipLong, table, next);
      forall l :: l in table ==> l in t.table && t.table[l] == table[l]
    decreases |labels|
  {
    if labels != [] {
      var init := labels[..|labels| - 1];
      CollectKeeps(init, skipLong, table, next);
      StepKeeps(Collect(init, skipLong, table, next), labels[|labels| - 1], skipLong);
    }
  }

  /** The table gains exactly the kept labels. */
  lemma {:induction false} CollectKeys(labels: seq<string>, skipLong: bool, table: map<string, int>, next: int)
    ensures Collect(labels, skipLong, table, next).table.Keys == table.Keys + set l | l in Filter(labels, skipLong)
    decreases |labels|
  {
    if labels != [] {
      var init := labels[..|labels| - 1];
      CollectKeys(init, skipLong, table, next);
      var name := labels[|labels| - 1];
      var f0 := Filter(init, skipLong);
      if Kept(name, skipLong) {
        assert Filter(labels, skipLong) == f0 + [name];
        assert (set l | l in f0 + [name]) == (set l | l in f0) + {name};
      } else {
        assert Filter(labels, skipLong) == f0;
      }
    }
  }

  /** The IDs follow the kept labels in order, each being that label's entry in the new table. */
  lemma {:induction false} CollectIds(labels: seq<string>, skipLong: bool, table: map<string, int>, next: int)
    ensures var t := Collect(labels, skipLong, table, next);
      && |t.ids| == |Filter(labels, skipLong)| <= |labels|
      && forall i :: 0 <= i < |t.ids| ==>
           Filter(labels, skipLong)[i] in t.table && t.ids[i] == t.table[Filter(labels, skipLong)[i]]
    decreases |labels|
  {
    if labels != [] {
      var init := labels[..|labels| - 1];
      CollectIds(init, skipLong, table, next);
      var t0 := Collect(init, skipLong, table, next);
      var name := labels[|labels| - 1];
      StepKeeps(t0, name, skipLong);
      var f0 := Filter(init, skipLong);
      if Kept(name, skipLong) {
        assert Filter(labels, skipLong) == f0 + [name];
      } else {
        assert Filter(labels, skipLong) == f0;
      }
    }
  }

  /** Only labels of the input that pass the word filter are imported. */
  lemma {:induction false} FilterKept(labels: seq<string>, skipLong: bool, l: string)
    ensures l in Filter(labels, skipLong) <==> l in labels && Kept(l, skipLong)
    decreases |labels|
  {
    if labels != [] {
      var init := labels[..|labels| - 1];
      FilterKept(init, skipLong, l);
      assert labels == init + [labels[|labels| - 1]];
    }
  }

  /** Without the word filter every name is kept. */
  lemma {:induction false} FilterAll(labels: seq<string>)
    ensures Filter(labels, false) == labels
    decreases |labels|
  {
    if labels != [] {
      FilterAll(labels[..|labels| - 1]);
    }
  }

  /** A successful `get_article_cats` gives the IDs of the kept labels in input order, at
      most one per category (exactly one without the word filter); the term table keeps
      every entry it had and gains exactly the kept labels, so a skipped label is never
      inserted. */
  lemma CatsOk(body: Json, skipLong: bool, table: map<string, int>, next: int)
    requires Cats(body, skipLong, table, next).result.Ok?
    ensures var c := Cats(body, skipLong, table, next);
      var labels := Labels(ForeachItems(Prop(LastPage(body), "categories")));
      && |c.result.value| == |Filter(labels, skipLong)| <= |labels|
      && (forall i :: 0 <= i < |c.result.value| ==>
            Filter(labels, skipLong)[i] in c.table && c.result.value[i] == c.table[Filter(labels, skipLong)[i]])
      && (forall l :: l in c.table <==> l in table || l in Filter(labels, skipLong))
      && (forall l :: l in table ==> l in c.table && c.table[l] == table[l])
      && (forall l :: l in labels && !Kept(l, skipLong) && l !in table ==> l !in c.table)
      && (!skipLong ==> |c.result.value| == |labels|)
  {
    var c := Cats(body, skipLong, table, next);
    var labels := Labels(ForeachItems(Prop(LastPage(body), "categories")));
    var t := Collect(labels, skipLong, table, next);
    assert c == CatsOutcome(Ok(t.ids), t.table, t.next);
    CollectIds(labels, skipLong, table, next);
    CollectKeys(labels, skipLong, table, next);
    CollectKeeps(labels, skipLong, table, next);
    forall l | l in labels && !Kept(l, skipLong) && l !in table ensures l !in c.table {
      FilterKept(labels, skipLong, l);
    }
    if !skipLong { FilterAll(labels); }
  }

  lemma {:induction false} CollectNoneKept(labels: seq<string>, skipLong: bool, table: map<string, int>, next: int)
    requires forall i :: 0 <= i < |labels| ==> !Kept(labels[i], skipLong)
    ensures Collect(labels, skipLong, table, next) == Terms([], table, next)
    decreases |labels|
  {
    if labels != [] {
      CollectNoneKept(labels[..|labels| - 1], skipLong, table, next);
    }
  }

  /** A page whose every category label has more than four words yields an empty list,
      not an error, and inserts nothing. */
  lemma AllFilteredIsEmptyList(body: Json, table: map<string, int>, next: int)
    requires !Missing(body) && LastPage(body).Obj? && Prop(LastPage(body), "categories") != Null
    requires var cats := ForeachItems(Prop(LastPage(body), "categories"));
      forall i :: 0 <= i < |cats| ==> StrWordCount(Label(cats[i])) > 4
    ensures Cats(body, true, table, next) == CatsOutcome(Ok([]), table, next)
  {
    var labels := Labels(ForeachItems(Prop(LastPage(body), "categories")));
    CollectNoneKept(labels, true, table, next);
  }

  // ---------------------------------------------------------------------------------------
  // parse_image_chance

  /** A WP-CLI associative argument: `--key=value`, or a bare `--key` (PHP `true`). */
  datatype ArgValue = Flag | Text(s: string)

  /** The chance of each `--with-images` tier; any other text is the `most` tier. */
  function TierChance(tier: string): int
  {
    if tier == "all" then 100
    else if tier == "some" then 50
    else if tier == "few" then 25
    else if tier == "none" then 0
    else 75
  }

  /** `parse_image_chance`: the percentage of posts that get a featured image. Absent, the
      option means `most`. The switch compares loosely, so a bare `--with-images` (PHP
      `true`) equals the first case, `all`. */
  function ParseImageChance(args: map<string, ArgValue>): (chance: int)
    ensures chance in {0, 25, 50, 75, 100}
    ensures "with-images" in args && args["with-images"] == Flag ==> chance == 100
  {
    if "with-images" !in args then 75
    else
      match args["with-images"]
      case Flag => 100
      case Text(tier) => TierChance(tier)
  }

  /** The command's documented tiers, from chance back to name. */
  function TierName(chance: int): string
  {
    if chance == 100 then "all"
    else if chance == 50 then "some"
    else if chance == 25 then "few"
    else if chance == 0 then "none"
    else "most"
  }

  /** Naming a tier gives back its chance, and every chance has a tier. */
  lemma TierRoundTrip(chance: int)
    requires chance in {0, 25, 50, 75, 100}
    ensures ParseImageChance(map["with-images" := Text(TierName(chance))]) == chance
  {
  }

  /** The default `most` tier is chosen exactly when the option is absent or names no
      other tier. */
  lemma DefaultChance(args: map<string, ArgValue>)
    ensures ParseImageChance(args) == 75 <==>
      "with-images" !in args || (args["with-images"].Text? && args["with-images"].s !in ["all", "some", "few", "none"])
  {
  }

  // ---------------------------------------------------------------------------------------
  // get_image_list

  /** A feed entry: its permalink (empty when it has none) and what `get_image_from_url`
      scrapes from the page it links to. */
  datatype FeedItem = FeedItem(permalink: string, image: string)

  /** What `fetch_feed` yields: an error, or the items of the feed. */
  datatype Feed = FeedFailure(error: Error) | FeedItems(items: seq<FeedItem>)

  /** SimplePie's `get_item_quantity($max)`: the number of items, capped at `max` unless
      `max` is 0. */
  function ItemQuantity(n: nat, max: int): (q: int)
    ensures max == 0 ==> q == n
    ensures max != 0 ==> q <= max && q <= n && (q == max || q == n)
  {
    if max == 0 then n else if n > max then max else n
  }

  /** SimplePie's `get_items(0, $end)`: all items when `end` is 0, otherwise
      `array_slice($items, 0, $end)`, whose negative length drops that many from the end. */
  function FirstItems<T>(items: seq<T>, end: int): (r: seq<T>)
    ensures r <= items
    ensures end > 0 ==> |r| == if end < |items| then end else |items|
  {
    if end == 0 then items
    else if end > 0 then (if end < |items| then items[..end] else items)
    else if |items| + end > 0 then items[..|items| + end]
    else []
  }

  /** The scraped images of the items that have a permalink, in feed order. */
  function Images(items: seq<FeedItem>): (r: seq<string>)
    ensures |r| <= |items|
  {
    if items == [] then []
    else
      var last := items[|items| - 1];
      Images(items[..|items| - 1]) + if EmptyString(last.permalink) then [] else [last.image]
  }

  /** `get_image_list` once the feed is fetched: `short-list` exactly when the feed holds
      fewer than `maxImages` items, otherwise one image per linked item among the first
      `maxImages`. */
  function ImageListOf(feed: Feed, maxImages: int): (r: Result<seq<string>>)
    ensures feed.FeedFailure? ==> r == Err(feed.error)
    ensures feed.FeedItems? ==> (r == Err(ShortList) <==> |feed.items| < maxImages)
    ensures r.Ok? && maxImages > 0 ==> |r.value| <= maxImages
  {
    match feed
    case FeedFailure(e) => Err(e)
    case FeedItems(items) =>
      var q := ItemQuantity(|items|, maxImages);
      if q < maxImages then Err(ShortList) else Ok(Images(FirstItems(items, q)))
  }

  /** Every image comes from an item with a permalink, and when every item has one there
      is an image per item. */
  lemma {:induction false} ImagesOf(items: seq<FeedItem>)
    ensures forall x :: x in Images(items) ==> exists i :: 0 <= i < |items| && !EmptyString(items[i].permalink) && items[i].image == x
    ensures (forall i :: 0 <= i < |items| ==> !EmptyString(items[i].permalink)) ==> |Images(items)| == |items|
    decreases |items|
  {
    if items != [] {
      var init := items[..|items| - 1];
      ImagesOf(init);
      forall x | x in Images(items)
        ensures exists i :: 0 <= i < |items| && !EmptyString(items[i].permalink) && items[i].image == x
      {
        if x in Images(init) {
          var i :| 0 <= i < |init| && !EmptyString(init[i].permalink) && init[i].image == x;
          assert items[i] == init[i];
        } else {
          assert items[|items| - 1].image == x;
        }
      }
    }
  }

  /** With enough items, all linked, the list has exactly `maxImages` images. */
  lemma FullImageList(items: seq<FeedItem>, maxImages: int)
    requires 0 < maxImages <= |items|
    requires forall i :: 0 <= i < |items| ==> !EmptyString(items[i].permalink)
    ensures ImageListOf(FeedItems(items), maxImages) == Ok(Images(items[..maxImages]))
    ensures |Images(items[..maxImages])| == maxImages
  {
    var first := items[..maxImages];
    assert FirstItems(items, maxImages) == first;
    assert forall i :: 0 <= i < |first| ==> first[i] == items[i];
    ImagesOf(first);
  }

  /** `get_image_list($category, $max_images)`: the foreach that scrapes each linked item. */
  method ImageList(feed: Feed, maxImages: int) returns (r: Result<seq<string>>)
    ensures r == ImageListOf(feed, maxImages)
  {
    if feed.FeedFailure? {
      return Err(feed.error);
    }
    var maxItems := ItemQuantity(|feed.items|, maxImages);
    if maxItems < maxImages {
      return Err(ShortList);
    }
    var items := FirstItems(feed.items, maxItems);
    var list: seq<string> := [];
    var i := 0;
    while i < |items|
      invariant 0 <= i <= |items|
      invariant list == Images(items[..i])
    {
      if !EmptyString(items[i].permalink) {
        list := list + [items[i].image];
      }
      assert items[..i + 1][..i] == items[..i];
      i := i + 1;
    }
    assert items[..i] == items;
    return Ok(list);
  }

  // ---------------------------------------------------------------------------------------
  // set_image

  /** What `set_image` returned, with the already-downloaded cache (a transient) after it. */
  datatype ImageResult = ImageResult(attachment: Attachment, cache: map<string, int>)

  /** The cache holds a usable ID for the file's basename. */
  predicate Cached(file: string, cache: map<string, int>)
  {
    Basename(file) in cache && cache[Basename(file)] != 0
  }

  /** `set_image` (api.php): `empty-file` for an empty file; the cached ID when the basename
      was downloaded before; otherwise the download and sideload outcomes, a new ID being
      remembered under the basename. Only a successful sideload changes the cache, and
      then only the file's own entry. */
  function SetImage(file: string, cache: map<string, int>, download: Result<string>, sideload: Result<int>): (r: ImageResult)
    ensures EmptyString(file) ==> r == ImageResult(Failed(EmptyFile), cache)
    ensures !r.attachment.Nothing?
    ensures r.attachment.Failed? ==> r.cache == cache
    ensures !EmptyString(file) ==> (r.attachment.Media? <==> Cached(file, cache) || (download.Ok? && sideload.Ok?))
    ensures r.attachment.Media? ==> r.attachment.id == if Cached(file, cache) then cache[Basename(file)] else sideload.value
    ensures r.attachment.Failed? && !EmptyString(file) ==>
      r.attachment.error == if download.Err? then download.error else sideload.error
    ensures r.attachment.Media? ==> Basename(file) in r.cache && r.cache[Basename(file)] == r.attachment.id
    ensures r.cache != cache ==> download.Ok? && sideload.Ok? && !Cached(file, cache)
  {
    if EmptyString(file) then ImageResult(Failed(EmptyFile), cache)
    else if Cached(file, cache) then ImageResult(Media(cache[Basename(file)]), cache)
    else if download.Err? then ImageResult(Failed(download.error), cache)
    else if sideload.Err? then ImageResult(Failed(sideload.error), cache)
    else ImageResult(Media(sideload.value), cache[Basename(file) := sideload.value])
  }

  /** The cache gains at most the file's basename, and every other entry is kept. */
  lemma SetImageKeeps(file: string, cache: map<string, int>, download: Result<string>, sideload: Result<int>)
    ensures var r := SetImage(file, cache, download, sideload);
      && r.cache.Keys <= cache.Keys + {Basename(file)}
      && forall k :: k in cache && k != Basename(file) ==> k in r.cache && r.cache[k] == cache[k]
  {
  }

  /** A cache hit neither downloads nor sideloads: the outcomes of both are irrelevant. */
  lemma CacheHitIgnoresOracles(file: string, cache: map<string, int>,
                               d: Result<string>, s: Result<int>, d': Result<string>, s': Result<int>)
    requires !EmptyString(file) && Cached(file, cache)
    ensures SetImage(file, cache, d, s) == SetImage(file, cache, d', s')
    ensures SetImage(file, cache, d, s) == ImageResult(Media(cache[Basename(file)]), cache)
  {
  }

  /** Two files with the same basename share one attachment: once the first is stored, the
      second gets its ID whatever its own URL. */
  lemma SharedBasename(f: string, g: string, cache: map<string, int>,
                       d: Result<string>, s: Result<int>, d': Result<string>, s': Result<int>)
    requires !EmptyString(f) && !EmptyString(g) && Basename(f) == Basename(g)
    requires SetImage(f, cache, d, s).attachment.Media? && SetImage(f, cache, d, s).attachment.id != 0
    ensures var first := SetImage(f, cache, d, s);
      SetImage(g, first.cache, d', s') == ImageResult(first.attachment, first.cache)
  {
  }

  /** `set_image` (demo-generator.cli.php): no cache, and nothing at all for an empty file. */
  function SetImageLegacy(file: string, download: Result<string>, sideload: Result<int>): (a: Attachment)
    ensures a.Nothing? <==> EmptyString(file)
    ensures a.Media? <==> !EmptyString(file) && download.Ok? && sideload.Ok?
    ensures a.Media? ==> a.id == sideload.value
    ensures !EmptyString(file) && download.Err? ==> a == Failed(download.error)
    ensures !EmptyString(file) && download.Ok? && sideload.Err? ==> a == Failed(sideload.error)
  {
    if EmptyString(file) then Nothing
    else if download.Err? then Failed(download.error)
    else if sideload.Err? then Failed(sideload.error)
    else Media(sideload.value)
  }

  /** With an empty cache the two versions agree on every non-empty file. */
  lemma LegacyAgreesOnFirstDownload(file: string, download: Result<string>, sideload: Result<int>)
    requires !EmptyString(file)
    ensures SetImage(file, map[], download, sideload).attachment == SetImageLegacy(file, download, sideload)
  {
  }
}
