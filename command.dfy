/** The `populate` command as the loops of lib/cli.php and demo-generator.cli.php run it:
    an object whose fields are the command's local state (`$post_types`, `$post_type`,
    `$image_list`, `$post`, and the term table and download cache it writes through the
    CMS), each step proved to move that state exactly as the run of the Populate module
    says. */
module Command {
  import opened Common
  import opened Php
  import opened Json
  import opened WikiApi
  import opened Populate

  /** The foreach over the public post types: a quota for each one with an option, in
      registration order, the theme-support warnings, and the loop variable's final value. */
  method CollectQuotas(publicTypes: seq<string>, args: map<string, int>, chance: int, support: ThemeSupport)
    returns (qs: seq<Quota>, ws: seq<Event>, last: string)
    ensures qs == Requested(publicTypes, args)
    ensures ws == ThemeWarnings(publicTypes, args, chance, support)
    ensures last == if publicTypes == [] then "" else publicTypes[|publicTypes| - 1]
  {
    qs, ws, last := [], [], "";
    var i := 0;
    while i < |publicTypes|
      invariant 0 <= i <= |publicTypes|
      invariant qs == Requested(publicTypes[..i], args)
      invariant ws == ThemeWarnings(publicTypes[..i], args, chance, support)
      invariant last == if i == 0 then "" else publicTypes[i - 1]
    {
      var t := publicTypes[i];
      CollectNextType(publicTypes, args, chance, support, i);
      if t in args {
        qs := qs + [Quota(t, args[t])];
        if NeedsWarning(t, chance, support) {
          ws := ws + [ThemeWarning(t)];
        }
      }
      last := t;
      i := i + 1;
    }
    TakeAll(publicTypes);
  }

  /** The scan stops at the first positive count, which is the one `Consume` decrements. */
  lemma AllocateHit(qs: seq<Quota>, i: nat, current: string)
    requires i < |qs| && qs[i].count > 0
    requires forall j :: 0 <= j < i ==> qs[j].count <= 0
    ensures Consume(qs) == qs[i := qs[i].(count := qs[i].count - 1)]
    ensures Allocated(qs, current) == qs[i].postType
  {
    FirstPositiveIs(qs, i);
  }

  /** A scan that finds no positive count changes no quota and leaves the last type. */
  lemma AllocateMiss(qs: seq<Quota>, current: string)
    requires forall j :: 0 <= j < |qs| ==> qs[j].count <= 0
    ensures Consume(qs) == qs
    ensures Allocated(qs, current) == if |qs| == 0 then current else qs[|qs| - 1].postType
  {
    FirstPositiveIs(qs, |qs|);
  }

  class Populator {
    const legacy: bool
    const threshold: int
    const categoryTypes: seq<string>
    const total: int

    var postTypes: seq<Quota>
    var current: string
    var pool: seq<string>
    var poolOk: bool
    var post: Post
    var terms: map<string, int>
    var nextTerm: int
    var cache: map<string, int>
    var events: seq<Event>
    /** The images taken from the pool so far; only the proofs look at them. */
    ghost var used: seq<string>
    /** The post type allocated to each title reached so far; only the proofs look at it. */
    ghost var labels: seq<string>
    var halted: bool

    function Cfg(): Config
    {
      Config(legacy, threshold, categoryTypes, total)
    }

    ghost function State(): Site
      reads this
    {
      Site(postTypes, current, pool, poolOk, post, terms, nextTerm, cache, events, used, labels, halted)
    }

    /** Reading the options and collecting the quotas: one entry per public post type that
        has an option, the theme-support warnings, the image chance and the number of
        articles to request. */
    constructor (legacy: bool, publicTypes: seq<string>, args: map<string, int>, withImages: map<string, ArgValue>,
                 support: ThemeSupport, categoryTypes: seq<string>,
                 terms: map<string, int>, nextTerm: int, cache: map<string, int>)
      ensures Cfg() == Config(legacy, ParseImageChance(withImages), categoryTypes,
                              Sum(Requested(publicTypes, args)))
      ensures State() == Initial(legacy, publicTypes, args, support, ParseImageChance(withImages),
                                 terms, nextTerm, cache)
    {
      var chance := ParseImageChance(withImages);
      var qs, ws, last := CollectQuotas(publicTypes, args, chance, support);
      this.legacy := legacy;
      this.threshold := chance;
      this.categoryTypes := categoryTypes;
      this.total := Sum(qs);
      postTypes := qs;
      current := last;
      pool := [];
      poolOk := true;
      post := DefaultPost(legacy);
      this.terms := terms;
      this.nextTerm := nextTerm;
      this.cache := cache;
      events := ws;
      used := [];
      labels := [];
      halted := false;
    }

    /** The allocating foreach at the head of each turn: it walks the quotas in map order,
        leaving `$post_type` at each entry it visits, and takes one from the first positive
        count. */
    method Allocate()
      modifies this`postTypes, this`current, this`labels
      ensures State() == Allot(old(State()))
    {
      ghost var qs := postTypes;
      var i := 0;
      while i < |postTypes|
        invariant 0 <= i <= |postTypes|
        invariant postTypes == qs && labels == old(labels)
        invariant forall j :: 0 <= j < i ==> qs[j].count <= 0
        invariant current == if i == 0 then old(current) else qs[i - 1].postType
      {
        current := postTypes[i].postType;
        if postTypes[i].count > 0 {
          AllocateHit(qs, i, old(current));
          postTypes := postTypes[i := postTypes[i].(count := postTypes[i].count - 1)];
          labels := labels + [current];
          return;
        }
        i := i + 1;
      }
      AllocateMiss(qs, old(current));
      labels := labels + [current];
    }

    /** One title after the allocation: reading the article, which may skip it, then
        inserting it. */
    method ProcessArticle(title: Json, o: Oracle)
      modifies this
      ensures State() == Article(Cfg(), old(State()), title, o)
    {
      var ready := PrepareArticle(title, o);
      if ready {
        InsertPost(o);
      }
    }

    /** The page request, whose failure skips the title with a warning (`continue`). */
    method PrepareArticle(title: Json, o: Oracle) returns (ready: bool)
      modifies this`post, this`terms, this`nextTerm, this`events
      ensures Prepared(State(), ready) == Prepare(Cfg(), old(State()), title, o)
    {
      var response := ArticleResponse(o.response);
      if response.Err? {
        events := events + [SkipWarning(response.error)];
        return false;
      }
      ready := ReadText(response.value, title, o.date);
    }

    /** The text, whose absence skips the title; the fields of the reused `$post` are
        overwritten, and for a post type of the category taxonomy the categories are read. */
    method ReadText(body: Json, title: Json, date: string) returns (ready: bool)
      modifies this`post, this`terms, this`nextTerm, this`events
      ensures Prepared(State(), ready) == PrepareBody(Cfg(), old(State()), body, title, date)
    {
      var text := ArticleText(body);
      if text.Err? {
        events := events + [SkipWarning(text.error)];
        return false;
      }
      post := post.(content := text.value, title := title, postType := current, date := Some(date));
      if current in categoryTypes {
        ready := ReadCategories(body);
      } else {
        ready := true;
      }
    }

    /** `get_article_cats` for the article, skipping it on an error, or storing the IDs as
        `post_category` of the reused `$post`. */
    method ReadCategories(body: Json) returns (ready: bool)
      modifies this`post, this`terms, this`nextTerm, this`events
      ensures Prepared(State(), ready) == Categorize(Cfg(), old(State()), body)
    {
      var categories, table', next' := ArticleCats(body, !legacy, terms, nextTerm);
      ready := ApplyCategories(categories, table', next');
    }

    /** The outcome of `get_article_cats`: a warning and a skip on an error, otherwise
        `post_category` and the term table it left. */
    method ApplyCategories(categories: Result<seq<int>>, table': map<string, int>, next': int) returns (ready: bool)
      modifies this`post, this`terms, this`nextTerm, this`events
      ensures Prepared(State(), ready) == Categorized(old(State()), CatsOutcome(categories, table', next'))
    {
      if categories.Err? {
        events := events + [SkipWarning(categories.error)];
        return false;
      }
      post := post.(category := Some(categories.value));
      terms, nextTerm := table', next';
      return true;
    }

    /** `wp_insert_post`, whose failure ends the run, then the featured image when the pool
        is usable and the draw is within the chance. */
    method InsertPost(o: Oracle)
      modifies this`events, this`halted, this`pool, this`used, this`cache
      ensures State() == Insert(Cfg(), old(State()), o)
    {
      if o.insert.Err? {
        events := events + [Fatal(o.insert.error)];
        halted := true;
        return;
      }
      var id := o.insert.value;
      events := events + [Inserted(post, id)];
      if poolOk && o.draw <= threshold {
        AttachImage(id, o);
      }
    }

    /** The featured image of post `id`: `array_rand` picks a key of the pool, `set_image`
        turns the file into an attachment (the current version through the download cache),
        and the key is unset. */
    method AttachImage(id: int, o: Oracle)
      modifies this`pool, this`used, this`cache, this`events
      ensures State() == Attach(Cfg(), old(State()), id, o)
    {
      ghost var s := State();
      var k := if pool == [] then 0 else o.pick % |pool|;
      var file := if pool == [] then "" else pool[k];
      assert k == Pick(s, o) && file == PickedFile(s, o);
      var attachment := SetImageOf(file, o);
      events := events + [Thumbnail(id, attachment)];
      if pool != [] {
        pool := pool[..k] + pool[k + 1..];
        used := used + [file];
      }
    }

    /** `set_image` for `file`: the current version looks the file up in the download
        cache and remembers a new download. The call on the object's cache field; it is
        proved to compute `AttachmentOf` and `CacheOf`, whose properties are proved in
        `WikiApi`. */
    method SetImageOf(file: string, o: Oracle) returns (attachment: Attachment)
      modifies this`cache
      ensures attachment == AttachmentOf(Cfg(), file, old(cache), o)
      ensures cache == CacheOf(Cfg(), file, old(cache), o)
    {
      if legacy {
        attachment := SetImageLegacy(file, o.download, o.sideload);
      } else {
        var r := SetImage(file, cache, o.download, o.sideload);
        attachment, cache := r.attachment, r.cache;
      }
    }

    /** Pulling the image list (in lib/cli.php only when the chance is not zero); its
        failure is reported and leaves the pool unusable. */
    method FetchImages(feed: Feed)
      modifies this`pool, this`poolOk, this`events
      ensures State() == Fetch(Cfg(), old(State()), feed)
    {
      if legacy || threshold != 0 {
        var images := ImageList(feed, total);
        if images.Err? {
          pool, poolOk := [], false;
          events := events + [ImageListWarning(images.error)];
        } else {
          pool, poolOk := images.value, true;
        }
      } else {
        pool, poolOk := [], true;
      }
    }

    /** The rest of the command once the quotas are collected: the article list, whose
        failure ends the run; the shuffle; the shortfall warning; the image list; then one
        allocation and one article per title until a fatal error. */
    method Run(list: Http, picks: seq<nat>, feed: Feed, oracles: nat -> Oracle)
      modifies this
      ensures State() == Populate.Populate(Cfg(), old(State()), list, picks, feed, oracles)
    {
      var articleList := ArticleList(list);
      if articleList.Err? {
        events := events + [Fatal(articleList.error)];
        halted := true;
        return;
      }
      var titles := Shuffle(articleList.value, picks);
      ReportShortfall(|titles|);
      FetchImages(feed);
      RunTitles(titles, oracles);
    }

    /** The warning when the category returned fewer titles than requested. */
    method ReportShortfall(found: nat)
      modifies this`events
      ensures State() == Shortfall(Cfg(), old(State()), found)
    {
      if found < total {
        events := events + [ShortfallWarning(found)];
      }
    }

    /** The outer foreach: one allocation and one article per title, until a fatal error. */
    method RunTitles(titles: seq<Json>, oracles: nat -> Oracle)
      modifies this
      ensures State() == Loop(Cfg(), old(State()), titles, oracles, 0)
    {
      var i := 0;
      while i < |titles| && !halted
        invariant 0 <= i <= |titles|
        invariant Loop(Cfg(), State(), titles, oracles, i) == Loop(Cfg(), old(State()), titles, oracles, 0)
        decreases |titles| - i
      {
        Allocate();
        ProcessArticle(titles[i], oracles(i));
        i := i + 1;
      }
    }
  }
}
