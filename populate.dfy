/** `Demo_Generator::populate`, the `wp demo populate` command (lib/cli.php), and its older
    copy (demo-generator.cli.php), which differ only where `legacy` says: how the requested
    post types share the articles, which article becomes which post, and how the image
    pool is used up. */
module Populate {
  import opened Common
  import opened Php
  import opened Json
  import opened WikiApi

  // ---------------------------------------------------------------------------------------
  // The `$post_types` quotas

  /** One entry of the ordered map `$post_types`: a post type and how many articles it is
      still owed. */
  datatype Quota = Quota(postType: string, count: int)

  /** `array_sum($post_types)`. */
  function Sum(qs: seq<Quota>): int
  {
    if qs == [] then 0 else qs[0].count + Sum(qs[1..])
  }

  /** The position of the first entry, in map order, whose count is positive. */
  function FirstPositive(qs: seq<Quota>): (k: nat)
    ensures k <= |qs|
    ensures k < |qs| ==> qs[k].count > 0
  {
    if qs == [] then 0 else if qs[0].count > 0 then 0 else 1 + FirstPositive(qs[1..])
  }

  /** No count before the first positive one is positive, so the first positive entry is
      the one a scan in map order stops at. */
  lemma {:induction false} FirstPositiveIs(qs: seq<Quota>, k: nat)
    requires k <= |qs| && (k < |qs| ==> qs[k].count > 0)
    ensures (forall j :: 0 <= j < k ==> qs[j].count <= 0) <==> FirstPositive(qs) == k
    decreases |qs|
  {
    if qs != [] && k > 0 {
      FirstPositiveIs(qs[1..], k - 1);
      forall j | 0 <= j < k - 1 ensures qs[1..][j] == qs[j + 1] { }
    }
  }

  /** The inner foreach of the populate loop on `$post_types`. */
  function Consume(qs: seq<Quota>): (r: seq<Quota>)
    ensures |r| == |qs|
  {
    var k := FirstPositive(qs);
    if k < |qs| then qs[k := qs[k].(count := qs[k].count - 1)] else qs
  }

  /** The first positive count loses one, every other entry stays as it is, and no count
      goes below zero. */
  lemma ConsumeSpec(qs: seq<Quota>)
    ensures forall i :: 0 <= i < |qs| ==> Consume(qs)[i].postType == qs[i].postType
    ensures FirstPositive(qs) < |qs| ==>
      Consume(qs)[FirstPositive(qs)].count == qs[FirstPositive(qs)].count - 1 &&
      forall i :: 0 <= i < |qs| && i != FirstPositive(qs) ==> Consume(qs)[i] == qs[i]
    ensures (forall i :: 0 <= i < |qs| ==> qs[i].count <= 0) ==> Consume(qs) == qs
    ensures NonNegative(qs) ==> NonNegative(Consume(qs))
  {
  }

  /** `$post_type` after the inner foreach: the entry it broke at, or the last entry when no
      count is positive (the loop variable keeps its final value), or the variable's earlier
      value when the map is empty. */
  function Allocated(qs: seq<Quota>, current: string): string
  {
    var k := FirstPositive(qs);
    if k < |qs| then qs[k].postType
    else if qs == [] then current
    else qs[|qs| - 1].postType
  }

  /** The quotas after `n` titles. */
  function ConsumeN(qs: seq<Quota>, n: nat): seq<Quota>
    decreases n
  {
    if n == 0 then qs else ConsumeN(Consume(qs), n - 1)
  }

  /** The post types `n` titles receive, in order. */
  function Allocation(qs: seq<Quota>, current: string, n: nat): seq<string>
    decreases n
  {
    if n == 0 then []
    else
      var t := Allocated(qs, current);
      [t] + Allocation(Consume(qs), t, n - 1)
  }

  function Repeat(t: string, c: int): (r: seq<string>)
    ensures |r| == if c <= 0 then 0 else c
    ensures forall x :: x in r ==> x == t
  {
    if c <= 0 then [] else [t] + Repeat(t, c - 1)
  }

  /** Each post type's quota as a block, in map order. */
  function Blocks(qs: seq<Quota>): seq<string>
  {
    if qs == [] then [] else Repeat(qs[0].postType, qs[0].count) + Blocks(qs[1..])
  }

  predicate NonNegative(qs: seq<Quota>)
  {
    forall i :: 0 <= i < |qs| ==> qs[i].count >= 0
  }

  predicate DistinctTypes(qs: seq<Quota>)
  {
    forall i, j :: 0 <= i < j < |qs| ==> qs[i].postType != qs[j].postType
  }

  lemma {:induction false} SumUpdate(qs: seq<Quota>, k: nat, c: int)
    requires k < |qs|
    ensures Sum(qs[k := qs[k].(count := c)]) == Sum(qs) - qs[k].count + c
    decreases |qs|
  {
    if k > 0 {
      SumUpdate(qs[1..], k - 1, c);
      assert qs[k := qs[k].(count := c)][1..] == qs[1..][k - 1 := qs[k].(count := c)];
    }
  }

  lemma {:induction false} SumNonNegative(qs: seq<Quota>)
    requires NonNegative(qs)
    ensures Sum(qs) >= 0
    ensures Sum(qs) == 0 ==> forall i :: 0 <= i < |qs| ==> qs[i].count == 0
    decreases |qs|
  {
    if qs != [] {
      SumNonNegative(qs[1..]);
      assert forall i :: 1 <= i < |qs| ==> qs[i] == qs[1..][i - 1];
    }
  }

  lemma {:induction false} SumNonPositive(qs: seq<Quota>)
    requires forall i :: 0 <= i < |qs| ==> qs[i].count <= 0
    ensures Sum(qs) <= 0
    decreases |qs|
  {
    if qs != [] {
      SumNonPositive(qs[1..]);
    }
  }

  /** A title that finds a positive count lowers the total by exactly one. */
  lemma ConsumeSum(qs: seq<Quota>)
    requires FirstPositive(qs) < |qs|
    ensures Sum(Consume(qs)) == Sum(qs) - 1
  {
    var k := FirstPositive(qs);
    SumUpdate(qs, k, qs[k].count - 1);
  }

  /** While the quotas last, every title uses up one of them, so after `Sum(qs)` titles
      every count is zero. */
  lemma {:induction false} ConsumeNSum(qs: seq<Quota>, n: nat)
    requires NonNegative(qs) && n <= Sum(qs)
    ensures NonNegative(ConsumeN(qs, n)) && Sum(ConsumeN(qs, n)) == Sum(qs) - n
    decreases n
  {
    if n > 0 {
      ConsumeOne(qs);
      ConsumeNSum(Consume(qs), n - 1);
    }
  }

  /** While some quota is left, one title uses up exactly one. */
  lemma ConsumeOne(qs: seq<Quota>)
    requires NonNegative(qs) && Sum(qs) > 0
    ensures FirstPositive(qs) < |qs|
    ensures NonNegative(Consume(qs)) && Sum(Consume(qs)) == Sum(qs) - 1
  {
    var k := FirstPositive(qs);
    if k < |qs| {
      ConsumeSum(qs);
      ConsumeSpec(qs);
    } else {
      FirstPositiveIs(qs, k);
      SumNonPositive(qs);
      assert false;
    }
  }

  lemma ConsumeLast(qs: seq<Quota>)
    requires qs != []
    ensures Consume(qs) != [] && Consume(qs)[|qs| - 1].postType == qs[|qs| - 1].postType
  {
    ConsumeSpec(qs);
  }

  lemma {:induction false} BlocksZero(qs: seq<Quota>)
    requires forall i :: 0 <= i < |qs| ==> qs[i].count <= 0
    ensures Blocks(qs) == []
    decreases |qs|
  {
    if qs != [] {
      BlocksZero(qs[1..]);
    }
  }

  lemma ConsumeTail(qs: seq<Quota>)
    requires qs != [] && qs[0].count <= 0
    ensures FirstPositive(qs) == 1 + FirstPositive(qs[1..])
    ensures Consume(qs) == [qs[0]] + Consume(qs[1..])
  {
    if FirstPositive(qs[1..]) < |qs| - 1 {
      ConsumeTailAt(qs);
    } else {
      ConsumeTailNone(qs);
    }
  }

  lemma ConsumeTailNone(qs: seq<Quota>)
    requires qs != [] && qs[0].count <= 0 && FirstPositive(qs[1..]) == |qs| - 1
    ensures Consume(qs) == [qs[0]] + Consume(qs[1..])
  {
    assert FirstPositive(qs) == |qs|;
    assert qs == [qs[0]] + qs[1..];
  }

  lemma ConsumeTailAt(qs: seq<Quota>)
    requires qs != [] && qs[0].count <= 0 && FirstPositive(qs[1..]) < |qs| - 1
    ensures Consume(qs) == [qs[0]] + Consume(qs[1..])
  {
    var tail := qs[1..];
    var k := FirstPositive(tail);
    var x := qs[k + 1].(count := qs[k + 1].count - 1);
    assert tail[k] == qs[k + 1];
    assert Consume(qs) == qs[k + 1 := x];
    assert Consume(tail) == tail[k := x];
    UpdateTail(qs, k + 1, x);
  }

  lemma UpdateTail<T>(s: seq<T>, k: nat, x: T)
    requires 0 < k < |s|
    ensures s[k := x] == [s[0]] + s[1..][k - 1 := x]
  {
  }

  lemma Assoc<T>(a: seq<T>, b: seq<T>, c: seq<T>)
    ensures a + (b + c) == (a + b) + c
  {
  }

  /** The first title of a positive quota takes the head of that type's block. */
  lemma {:induction false} BlocksFirst(qs: seq<Quota>)
    requires FirstPositive(qs) < |qs|
    ensures Blocks(qs) == [qs[FirstPositive(qs)].postType] + Blocks(Consume(qs))
    decreases |qs|
  {
    if qs[0].count > 0 {
      assert Consume(qs)[1..] == qs[1..];
    } else {
      ConsumeTail(qs);
      BlocksFirst(qs[1..]);
      assert Consume(qs)[1..] == Consume(qs[1..]);
    }
  }

  /** Once every count is zero, each further title goes to the last post type and changes
      nothing. */
  lemma {:induction false} AllocationIdle(qs: seq<Quota>, current: string, m: nat)
    requires qs != [] && forall i :: 0 <= i < |qs| ==> qs[i].count <= 0
    ensures Allocation(qs, current, m) == Repeat(qs[|qs| - 1].postType, m)
    ensures ConsumeN(qs, m) == qs
    decreases m
  {
    if m > 0 {
      AllocationIdle(qs, qs[|qs| - 1].postType, m - 1);
    }
  }

  /** The allocation: with non-negative quotas, the titles go to the post types in map
      order, each receiving exactly its quota as one block, and every title beyond the
      total goes to the last post type rather than being dropped. */
  lemma {:induction false} AllocationBlocks(qs: seq<Quota>, current: string, m: nat)
    requires qs != [] && NonNegative(qs)
    ensures Sum(qs) >= 0
    ensures Allocation(qs, current, Sum(qs) + m) == Blocks(qs) + Repeat(qs[|qs| - 1].postType, m)
    decreases Sum(qs)
  {
    assert Sum(qs) >= 0 by { SumNonNegative(qs); }
    var k := FirstPositive(qs);
    if Sum(qs) == 0 {
      SumNonNegative(qs);
      BlocksZero(qs);
      AllocationIdle(qs, current, m);
    } else {
      var rest := Consume(qs);
      assert && k < |qs| && rest != [] && NonNegative(rest) && Sum(rest) == Sum(qs) - 1
             && rest[|rest| - 1].postType == qs[|qs| - 1].postType by {
        ConsumeOne(qs);
        ConsumeLast(qs);
      }
      AllocationBlocks(rest, qs[k].postType, m);
      AllocationStep(qs, current, m);
    }
  }

  /** One title of a positive quota, then the rest of the allocation. */
  lemma AllocationStep(qs: seq<Quota>, current: string, m: nat)
    requires FirstPositive(qs) < |qs| && Sum(Consume(qs)) == Sum(qs) - 1 && Sum(Consume(qs)) >= 0
    requires var t := qs[FirstPositive(qs)].postType;
      Allocation(Consume(qs), t, Sum(Consume(qs)) + m) == Blocks(Consume(qs)) + Repeat(qs[|qs| - 1].postType, m)
    ensures Allocation(qs, current, Sum(qs) + m) == Blocks(qs) + Repeat(qs[|qs| - 1].postType, m)
  {
    var rest := Consume(qs);
    var t := qs[FirstPositive(qs)].postType;
    var tail := Repeat(qs[|qs| - 1].postType, m);
    assert Allocated(qs, current) == t;
    assert Allocation(qs, current, Sum(qs) + m) == [t] + Allocation(rest, t, Sum(rest) + m);
    BlocksFirst(qs);
    Assoc([t], Blocks(rest), tail);
  }

  lemma {:induction false} RepeatCount(t: string, c: int, x: string)
    ensures multiset(Repeat(t, c))[x] == if x == t && c > 0 then c else 0
    decreases if c <= 0 then 0 else c
  {
    if c > 0 {
      RepeatCount(t, c - 1, x);
    }
  }

  /** Every requested post type receives exactly its quota. */
  lemma {:induction false} BlocksCount(qs: seq<Quota>, i: nat)
    requires i < |qs| && NonNegative(qs) && DistinctTypes(qs)
    ensures multiset(Blocks(qs))[qs[i].postType] == qs[i].count
    decreases |qs|
  {
    var t := qs[i].postType;
    RepeatCount(qs[0].postType, qs[0].count, t);
    if i == 0 {
      BlocksAbsent(qs[1..], t);
    } else {
      BlocksCount(qs[1..], i - 1);
    }
  }

  lemma {:induction false} BlocksAbsent(qs: seq<Quota>, t: string)
    requires forall i :: 0 <= i < |qs| ==> qs[i].postType != t
    ensures multiset(Blocks(qs))[t] == 0
    decreases |qs|
  {
    if qs != [] {
      RepeatCount(qs[0].postType, qs[0].count, t);
      BlocksAbsent(qs[1..], t);
    }
  }

  // ---------------------------------------------------------------------------------------
  // Collecting the quotas

  /** `get_theme_support('post-thumbnails')`: absent (`false`), for every post type (`true`),
      or for the listed post types. */
  datatype ThemeSupport = NotSupported | AllTypes | Listed(types: seq<string>)

  /** The quotas the command line asks for: the public post types with an option, in
      registration order, each with the option's value. */
  function Requested(publicTypes: seq<string>, args: map<string, int>): (qs: seq<Quota>)
    ensures |qs| <= |publicTypes|
  {
    if publicTypes == [] then []
    else
      var init := publicTypes[..|publicTypes| - 1];
      var t := publicTypes[|publicTypes| - 1];
      Requested(init, args) + if t in args then [Quota(t, args[t])] else []
  }

  /** Every quota is an option's value, and exactly the public post types with an option
      have one. */
  lemma {:induction false} RequestedQuotas(publicTypes: seq<string>, args: map<string, int>)
    ensures QuotasOf(Requested(publicTypes, args), publicTypes, args)
    decreases |publicTypes|
  {
    if publicTypes != [] {
      var init := publicTypes[..|publicTypes| - 1];
      var t := publicTypes[|publicTypes| - 1];
      assert publicTypes == init + [t];
      RequestedQuotas(init, args);
      QuotasSnoc(Requested(init, args), init, t, args);
    }
  }

  /** Every quota is an option's value, and exactly the public post types with an option
      have one. */
  ghost predicate QuotasOf(qs: seq<Quota>, publicTypes: seq<string>, args: map<string, int>)
  {
    && (forall i :: 0 <= i < |qs| ==> qs[i].postType in args && qs[i].count == args[qs[i].postType])
    && (forall t :: t in PostTypes(qs) <==> t in publicTypes && t in args)
  }

  /** With distinct public post types, as WordPress registers them, no post type has two
      quotas. */
  lemma {:induction false} RequestedDistinct(publicTypes: seq<string>, args: map<string, int>)
    requires forall i, j :: 0 <= i < j < |publicTypes| ==> publicTypes[i] != publicTypes[j]
    ensures DistinctTypes(Requested(publicTypes, args))
    decreases |publicTypes|
  {
    if publicTypes != [] {
      var init := publicTypes[..|publicTypes| - 1];
      var t := publicTypes[|publicTypes| - 1];
      assert forall k :: 0 <= k < |init| ==> init[k] == publicTypes[k];
      RequestedDistinct(init, args);
      RequestedQuotas(init, args);
      var qs := Requested(init, args);
      forall i | 0 <= i < |qs|
        ensures qs[i].postType != t
      {
        assert PostTypes(qs)[i] == qs[i].postType;
      }
      if t in args {
        var r := qs + [Quota(t, args[t])];
        forall i, j | 0 <= i < j < |r|
          ensures r[i].postType != r[j].postType
        {
          if j < |qs| {
            assert r[i] == qs[i] && r[j] == qs[j];
          } else {
            assert r[i] == qs[i];
          }
        }
      } else {
        assert qs + [] == qs;
      }
    }
  }

  lemma QuotasSnoc(qs: seq<Quota>, publicTypes: seq<string>, t: string, args: map<string, int>)
    requires QuotasOf(qs, publicTypes, args)
    ensures QuotasOf(qs + if t in args then [Quota(t, args[t])] else [], publicTypes + [t], args)
  {
    assert forall x :: x in publicTypes + [t] <==> x in publicTypes || x == t;
    if t in args {
      PostTypesSnoc(qs, Quota(t, args[t]));
      assert forall x :: x in PostTypes(qs + [Quota(t, args[t])]) <==> x in PostTypes(qs) || x == t;
    } else {
      assert qs + [] == qs;
    }
  }

  lemma PostTypesSnoc(qs: seq<Quota>, q: Quota)
    ensures PostTypes(qs + [q]) == PostTypes(qs) + [q.postType]
  {
    assert (qs + [q])[..|qs|] == qs;
  }

  function PostTypes(qs: seq<Quota>): (ts: seq<string>)
    ensures |ts| == |qs| && forall i :: 0 <= i < |qs| ==> ts[i] == qs[i].postType
  {
    if qs == [] then [] else PostTypes(qs[..|qs| - 1]) + [qs[|qs| - 1].postType]
  }

  /** Whether a requested post type draws the theme-support warning: images are wanted, and
      the theme does not declare support for every type, and (when it lists types) does not
      list this one. A theme without support is an empty list to `in_array`. */
  predicate NeedsWarning(postType: string, chance: int, support: ThemeSupport)
  {
    chance != 0 && !support.AllTypes? && !(support.Listed? && postType in support.types)
  }

  /** The warnings of the quota-collecting foreach, in registration order. */
  function ThemeWarnings(publicTypes: seq<string>, args: map<string, int>, chance: int, support: ThemeSupport): (ws: seq<Event>)
    ensures |ws| <= |publicTypes|
  {
    if publicTypes == [] then []
    else
      var init := publicTypes[..|publicTypes| - 1];
      var t := publicTypes[|publicTypes| - 1];
      ThemeWarnings(init, args, chance, support) + if t in args && NeedsWarning(t, chance, support) then [ThemeWarning(t)] else []
  }

  /** The collecting foreach warns only about post types, and about a post type exactly when
      it is public, has an option and draws the warning. */
  lemma {:induction false} ThemeWarningsFor(publicTypes: seq<string>, args: map<string, int>, chance: int, support: ThemeSupport)
    ensures var ws := ThemeWarnings(publicTypes, args, chance, support);
      && (forall i :: 0 <= i < |ws| ==> ws[i].ThemeWarning?)
      && (forall t :: ThemeWarning(t) in ws <==> t in publicTypes && t in args && NeedsWarning(t, chance, support))
    decreases |publicTypes|
  {
    if publicTypes != [] {
      var init := publicTypes[..|publicTypes| - 1];
      var t := publicTypes[|publicTypes| - 1];
      assert publicTypes == init + [t];
      ThemeWarningsFor(init, args, chance, support);
    }
  }

  /** The collecting foreach one public type further. */
  lemma CollectNextType(publicTypes: seq<string>, args: map<string, int>, chance: int, support: ThemeSupport, i: nat)
    requires i < |publicTypes|
    ensures var t := publicTypes[i];
      var qs := Requested(publicTypes[..i], args);
      var ws := ThemeWarnings(publicTypes[..i], args, chance, support);
      && (t in args ==> Requested(publicTypes[..i + 1], args) == qs + [Quota(t, args[t])])
      && (t !in args ==> Requested(publicTypes[..i + 1], args) == qs)
      && (t in args && NeedsWarning(t, chance, support) ==>
            ThemeWarnings(publicTypes[..i + 1], args, chance, support) == ws + [ThemeWarning(t)])
      && (!(t in args && NeedsWarning(t, chance, support)) ==>
            ThemeWarnings(publicTypes[..i + 1], args, chance, support) == ws)
  {
    PrefixInit(publicTypes, i);
  }

  lemma TakeAll<T>(s: seq<T>)
    ensures s[..|s|] == s
  {
  }

  lemma PrefixInit<T>(s: seq<T>, i: nat)
    requires i < |s|
    ensures s[..i + 1][..i] == s[..i] && s[..i + 1][i] == s[i] && |s[..i + 1]| == i + 1
  {
  }

  // ---------------------------------------------------------------------------------------
  // The run

  /** The `$post` array handed to `wp_insert_post`: the fields that change between articles.
      `date` is what `random_date` gave; `category` is `post_category`, absent until set. */
  datatype Post = Post(content: Json, title: Json, postType: string, date: Option<string>, category: Option<seq<int>>)

  /** What the command does that the run's outcome depends on, in order. `Inserted` stands
      for the `wp_insert_post` call, which comes before any featured image; the "Created"
      line lib/cli.php prints at the end of the turn, after the image, is not an event of
      its own. */
  datatype Event =
    | ThemeWarning(postType: string)
    | ShortfallWarning(found: nat)
    | ImageListWarning(error: Error)
    | SkipWarning(error: Error)
    | Inserted(post: Post, postId: int)
    | Thumbnail(postId: int, attachment: Attachment)
    | Fatal(error: Error)

  /** The events an article can cause. */
  predicate ArticleEvent(e: Event)
  {
    e.SkipWarning? || e.Inserted? || e.Thumbnail? || e.Fatal?
  }

  /** `mt_rand(0, 100)`. */
  type Draw = d: int | 0 <= d <= 100

  /** Everything outside the command that one article meets: the page request's response,
      `random_date`, `wp_insert_post`, the image draw, the `array_rand` choice (reduced
      modulo the pool size), `download_url` and `media_handle_sideload`. */
  datatype Oracle = Oracle(response: Http, date: string, insert: Result<int>, draw: Draw, pick: nat,
                           download: Result<string>, sideload: Result<int>)

  /** What does not change during a run: which version runs, the image chance, the post
      types of the category taxonomy and the number of articles requested. */
  datatype Config = Config(legacy: bool, threshold: int, categoryTypes: seq<string>, total: int)

  /** The command's state: the quotas and `$post_type`, the image pool (`$image_list`, or
      `poolOk == false` once it is an error), the reused `$post`, the category term table
      with the next term ID, the already-downloaded cache, the events so far, the images
      taken from the pool, the post type allocated to each title reached so far, and whether
      `WP_CLI::error` has ended the run. */
  datatype Site = Site(postTypes: seq<Quota>, current: string, pool: seq<string>, poolOk: bool, post: Post,
                       terms: map<string, int>, nextTerm: int, cache: map<string, int>,
                       events: seq<Event>, used: seq<string>, labels: seq<string>, halted: bool)

  /** The default `$post` (lib/cli.php sets empty strings; the older version reads two
      variables that are not yet defined). */
  function DefaultPost(legacy: bool): Post
  {
    var blank := if legacy then Null else Str("");
    Post(blank, blank, "post", None, None)
  }

  /** The state once the quotas are collected. `$post_type` keeps the last public type the
      collecting foreach visited. */
  function Initial(legacy: bool, publicTypes: seq<string>, args: map<string, int>, support: ThemeSupport, chance: int,
                   terms: map<string, int>, nextTerm: int, cache: map<string, int>): Site
  {
    Site(Requested(publicTypes, args), if publicTypes == [] then "" else publicTypes[|publicTypes| - 1],
         [], true, DefaultPost(legacy), terms, nextTerm, cache, ThemeWarnings(publicTypes, args, chance, support), [], [], false)
  }

  /** The allocation at the top of each turn, recorded as this title's post type. */
  function Allot(s: Site): Site
  {
    var t := Allocated(s.postTypes, s.current);
    s.(postTypes := Consume(s.postTypes), current := t, labels := s.labels + [t])
  }

  /** The pool position `array_rand` picks (meaningless for an empty pool). */
  function Pick(s: Site, o: Oracle): nat
  {
    if s.pool == [] then 0 else o.pick % |s.pool|
  }

  /** `$image_list[$key]`: the picked image, or nothing (an empty file) for an empty pool. */
  function PickedFile(s: Site, o: Oracle): string
  {
    if s.pool == [] then "" else s.pool[Pick(s, o)]
  }

  /** What `set_image` gives for the picked file, in either version. */
  function AttachmentFor(c: Config, s: Site, o: Oracle): Attachment
  {
    AttachmentOf(c, PickedFile(s, o), s.cache, o)
  }

  /** `set_image($file, $post_id)` in either version, with the download cache before it. */
  function AttachmentOf(c: Config, file: string, cache: map<string, int>, o: Oracle): Attachment
  {
    if c.legacy then SetImageLegacy(file, o.download, o.sideload)
    else SetImage(file, cache, o.download, o.sideload).attachment
  }

  /** The download cache after it: only the current version remembers downloads. */
  function CacheOf(c: Config, file: string, cache: map<string, int>, o: Oracle): map<string, int>
  {
    if c.legacy then cache else SetImage(file, cache, o.download, o.sideload).cache
  }

  /** Featured image for the inserted post `id`: the attachment is reported, only the
      current version remembers the download, and the picked entry is unset. */
  function Attach(c: Config, s: Site, id: int, o: Oracle): (r: Site)
    ensures r.postTypes == s.postTypes && r.current == s.current && r.poolOk == s.poolOk && r.post == s.post
    ensures r.terms == s.terms && r.nextTerm == s.nextTerm && r.labels == s.labels && r.halted == s.halted
  {
    var k := Pick(s, o);
    var file := PickedFile(s, o);
    var cache := CacheOf(c, file, s.cache, o);
    var events := s.events + [Thumbnail(id, AttachmentFor(c, s, o))];
    if s.pool == [] then
      s.(cache := cache, events := events)
    else
      s.(cache := cache, events := events, pool := s.pool[..k] + s.pool[k + 1..], used := s.used + [file])
  }

  /** The picked entry moves from the pool to the used images, the attachment is reported,
      and with an empty pool the current version reports `empty-file` and keeps its cache. */
  lemma AttachSpec(c: Config, s: Site, id: int, o: Oracle)
    ensures var r := Attach(c, s, id, o);
      && multiset(r.pool) + multiset(r.used) == multiset(s.pool) + multiset(s.used)
      && |r.pool| == (if s.pool == [] then 0 else |s.pool| - 1)
      && r.events == s.events + [Thumbnail(id, AttachmentFor(c, s, o))]
      && (s.pool == [] && !c.legacy ==> AttachmentFor(c, s, o) == Failed(EmptyFile) && r.cache == s.cache)
      && (s.pool != [] ==>
            Pick(s, o) < |s.pool| && PickedFile(s, o) == s.pool[Pick(s, o)] &&
            r.pool == s.pool[..Pick(s, o)] + s.pool[Pick(s, o) + 1..] && r.used == s.used + [PickedFile(s, o)])
      && (s.pool == [] ==> r.pool == [] && r.used == s.used)
      && r.cache == CacheOf(c, PickedFile(s, o), s.cache, o)
  {
    if s.pool != [] {
      TakeOut(s.pool, Pick(s, o));
    }
  }

  /** Inserting the post: `WP_CLI::error` ends the run on failure; otherwise the insertion
      is recorded with the new ID and, exactly when the pool is usable and the draw is
      within the chance, the image set for that ID is recorded after it. */
  function Insert(c: Config, s: Site, o: Oracle): (r: Site)
    ensures r.postTypes == s.postTypes && r.current == s.current && r.poolOk == s.poolOk && r.labels == s.labels
    ensures r.halted <==> s.halted || o.insert.Err?
    ensures o.insert.Err? ==> r == s.(events := s.events + [Fatal(o.insert.error)], halted := true)
    ensures o.insert.Ok? ==> (|r.events| == |s.events| + 2 <==> s.poolOk && o.draw <= c.threshold)
    ensures o.insert.Ok? && !(s.poolOk && o.draw <= c.threshold) ==>
      r == s.(events := s.events + [Inserted(s.post, o.insert.value)])
  {
    match o.insert
    case Err(e) => s.(events := s.events + [Fatal(e)], halted := true)
    case Ok(id) =>
      var s' := s.(events := s.events + [Inserted(s.post, id)]);
      if s.poolOk && o.draw <= c.threshold then Attach(c, s', id, o) else s'
  }

  /** The pool only loses what is used, and the events grow by the insertion (or the fatal
      error) and possibly a featured image, which is the attachment of the picked file
      reported for the ID just inserted. */
  lemma InsertSpec(c: Config, s: Site, o: Oracle)
    ensures var r := Insert(c, s, o);
      && multiset(r.pool) + multiset(r.used) == multiset(s.pool) + multiset(s.used)
      && |r.pool| <= |s.pool|
      && OnlyArticleEvents(s.events, r.events) && |s.events| < |r.events|
      && (o.insert.Ok? ==> r.events[|s.events|] == Inserted(s.post, o.insert.value))
      && (o.insert.Ok? && s.poolOk && o.draw <= c.threshold ==>
            r.events == s.events + [Inserted(s.post, o.insert.value), Thumbnail(o.insert.value, AttachmentFor(c, s, o))] &&
            r.cache == CacheOf(c, PickedFile(s, o), s.cache, o))
      && (!(o.insert.Ok? && s.poolOk && o.draw <= c.threshold) ==> r.cache == s.cache)
  {
    if o.insert.Ok? {
      var s' := s.(events := s.events + [Inserted(s.post, o.insert.value)]);
      if s.poolOk && o.draw <= c.threshold {
        AttachSpec(c, s', o.insert.value, o);
        var r := Attach(c, s', o.insert.value, o);
        assert r.events == s.events + [Inserted(s.post, o.insert.value), Thumbnail(o.insert.value, AttachmentFor(c, s', o))];
      }
    }
  }

  /** The state after an article's page, text and (for a post type of the category
      taxonomy) categories are read, and whether it is ready to insert. */
  datatype Prepared = Prepared(site: Site, ready: bool)

  /** The part of a turn before `wp_insert_post`. A failed page request, missing text or
      missing categories report one warning and skip the article; nothing here touches the
      quotas, the pool or the download cache. */
  function Prepare(c: Config, s: Site, title: Json, o: Oracle): (p: Prepared)
    ensures Keeps(s, p)
    ensures ArticleResponse(o.response).Err? ==>
      p == Prepared(s.(events := s.events + [SkipWarning(ArticleResponse(o.response).error)]), false)
    ensures p.ready <==>
      ArticleResponse(o.response).Ok? && PrepareBody(c, s, ArticleResponse(o.response).value, title, o.date).ready
  {
    match ArticleResponse(o.response)
    case Err(e) => Prepared(s.(events := s.events + [SkipWarning(e)]), false)
    case Ok(body) => PrepareBody(c, s, body, title, o.date)
  }

  /** The text of a page that was read, written into the reused `$post` with the title,
      the allocated post type and the date. */
  function PrepareBody(c: Config, s: Site, body: Json, title: Json, date: string): (p: Prepared)
    ensures Keeps(s, p)
    ensures ArticleText(body).Err? ==> p == Prepared(s.(events := s.events + [SkipWarning(ArticleText(body).error)]), false)
    ensures p.ready <==>
      ArticleText(body).Ok? && (s.current in c.categoryTypes ==> Cats(body, !c.legacy, s.terms, s.nextTerm).result.Ok?)
    ensures p.ready ==>
      && ArticleText(body).Ok? && p.site.post.content == ArticleText(body).value && p.site.post.title == title
      && p.site.post.postType == s.current && p.site.post.date == Some(date)
    ensures s.current !in c.categoryTypes || !p.ready ==> p.site.terms == s.terms && p.site.nextTerm == s.nextTerm
    ensures p.ready && s.current in c.categoryTypes ==>
      p.site.terms == Cats(body, !c.legacy, s.terms, s.nextTerm).table &&
      p.site.nextTerm == Cats(body, !c.legacy, s.terms, s.nextTerm).next
  {
    match ArticleText(body)
    case Err(e) => Prepared(s.(events := s.events + [SkipWarning(e)]), false)
    case Ok(text) =>
      var s' := s.(post := s.post.(content := text, title := title, postType := s.current, date := Some(date)));
      if s.current in c.categoryTypes then Categorize(c, s', body) else Prepared(s', true)
  }

  /** `get_article_cats` for a post type of the category taxonomy: its IDs become
      `post_category`, and the term table is what it left. */
  function Categorize(c: Config, s: Site, body: Json): (p: Prepared)
    ensures Keeps(s, p)
    ensures p.ready <==> Cats(body, !c.legacy, s.terms, s.nextTerm).result.Ok?
    ensures p.ready ==>
      p.site.terms == Cats(body, !c.legacy, s.terms, s.nextTerm).table &&
      p.site.nextTerm == Cats(body, !c.legacy, s.terms, s.nextTerm).next
    ensures Cats(body, !c.legacy, s.terms, s.nextTerm).result.Err? ==>
      p == Prepared(s.(events := s.events + [SkipWarning(Cats(body, !c.legacy, s.terms, s.nextTerm).result.error)]), false)
  {
    Categorized(s, Cats(body, !c.legacy, s.terms, s.nextTerm))
  }

  /** The outcome `cats` of `get_article_cats` applied to the state. */
  function Categorized(s: Site, cats: CatsOutcome): (p: Prepared)
    ensures Keeps(s, p)
    ensures p.ready <==> cats.result.Ok?
    ensures cats.result.Err? ==> p == Prepared(s.(events := s.events + [SkipWarning(cats.result.error)]), false)
    ensures cats.result.Ok? ==> p.site.post == s.post.(category := Some(cats.result.value))
    ensures cats.result.Ok? ==> p.site.terms == cats.table && p.site.nextTerm == cats.next
  {
    match cats.result
    case Err(e) => Prepared(s.(events := s.events + [SkipWarning(e)]), false)
    case Ok(ids) => Prepared(s.(post := s.post.(category := Some(ids)), terms := cats.table, nextTerm := cats.next), true)
  }

  /** What reading an article leaves alone, and its events: none when it is ready, one
      warning when it is skipped. */
  predicate Keeps(s: Site, p: Prepared)
  {
    && p.site.postTypes == s.postTypes && p.site.current == s.current && p.site.halted == s.halted
    && p.site.pool == s.pool && p.site.poolOk == s.poolOk && p.site.used == s.used && p.site.cache == s.cache
    && p.site.labels == s.labels
    && (p.ready ==> p.site.events == s.events)
    && (!p.ready ==> |p.site.events| == |s.events| + 1 &&
                     p.site.events == s.events + [p.site.events[|s.events|]] &&
                     p.site.events[|s.events|].SkipWarning?)
  }

  /** `post_category` and the category term table only change for a post type of the
      category taxonomy whose article is ready, and then to the IDs of this article's
      categories and the table `get_article_cats` left. */
  lemma PrepareCategory(c: Config, s: Site, title: Json, o: Oracle)
    ensures var p := Prepare(c, s, title, o);
      && (s.current !in c.categoryTypes ==> p.site.post.category == s.post.category)
      && (s.current !in c.categoryTypes || !p.ready ==> p.site.terms == s.terms && p.site.nextTerm == s.nextTerm)
      && (p.ready && s.current in c.categoryTypes ==>
            ArticleResponse(o.response).Ok? &&
            Cats(ArticleResponse(o.response).value, !c.legacy, s.terms, s.nextTerm).result.Ok? &&
            p.site.post.category == Some(Cats(ArticleResponse(o.response).value, !c.legacy, s.terms, s.nextTerm).result.value) &&
            p.site.terms == Cats(ArticleResponse(o.response).value, !c.legacy, s.terms, s.nextTerm).table &&
            p.site.nextTerm == Cats(ArticleResponse(o.response).value, !c.legacy, s.terms, s.nextTerm).next)
  {
  }

  /** One article after the allocation: the quotas, the current post type and the
      usability of the pool never change, the pool only loses what is used, and the events
      only grow, by events of this article. */
  function Article(c: Config, s: Site, title: Json, o: Oracle): (r: Site)
    ensures r.postTypes == s.postTypes && r.current == s.current && r.poolOk == s.poolOk && r.labels == s.labels
    ensures r.halted <==> s.halted || (Prepare(c, s, title, o).ready && o.insert.Err?)
  {
    var p := Prepare(c, s, title, o);
    if p.ready then Insert(c, p.site, o) else p.site
  }

  lemma ArticleSpec(c: Config, s: Site, title: Json, o: Oracle)
    ensures var r := Article(c, s, title, o);
      && multiset(r.pool) + multiset(r.used) == multiset(s.pool) + multiset(s.used)
      && |r.pool| <= |s.pool|
      && OnlyArticleEvents(s.events, r.events)
  {
    var p := Prepare(c, s, title, o);
    if p.ready {
      InsertSpec(c, p.site, o);
    }
  }

  /** A page the encyclopedia does not have is skipped with one `not-found` warning and
      nothing else happens: no post is inserted and no image attached. */
  lemma ArticleMissingPage(c: Config, s: Site, title: Json, o: Oracle)
    requires o.response.Body? && Missing(o.response.decoded)
    ensures Article(c, s, title, o) == s.(events := s.events + [SkipWarning(NotFound)])
  {
    assert Truthy(o.response.decoded);
  }

  /** A ready article whose `wp_insert_post` fails ends the run with that error, after
      nothing but the insertion's fatal error. */
  lemma ArticleFatal(c: Config, s: Site, title: Json, o: Oracle)
    requires Prepare(c, s, title, o).ready && o.insert.Err?
    ensures var p := Prepare(c, s, title, o);
      Article(c, s, title, o) == p.site.(events := s.events + [Fatal(o.insert.error)], halted := true)
  {
  }

  /** The outer foreach from title `i` on; the run stops at the first fatal error. */
  function Loop(c: Config, s: Site, titles: seq<Json>, oracles: nat -> Oracle, i: nat): Site
    decreases |titles| - i
  {
    if |titles| <= i || s.halted then s
    else Loop(c, Article(c, Allot(s), titles[i], oracles(i)), titles, oracles, i + 1)
  }

  /** Pulling images: in lib/cli.php only when the chance is not zero; an error leaves the
      pool unusable for the whole run. */
  function Fetch(c: Config, s: Site, feed: Feed): (r: Site)
    ensures r.postTypes == s.postTypes && r.current == s.current && r.used == s.used && r.halted == s.halted
    ensures r.labels == s.labels && r.post == s.post && r.terms == s.terms && r.nextTerm == s.nextTerm
    ensures r.cache == s.cache
    ensures (c.legacy || c.threshold != 0) && ImageListOf(feed, c.total).Err? ==>
      r.events == s.events + [ImageListWarning(ImageListOf(feed, c.total).error)]
    ensures !((c.legacy || c.threshold != 0) && ImageListOf(feed, c.total).Err?) ==> r.events == s.events
    ensures !c.legacy && c.threshold == 0 ==> r.pool == [] && r.poolOk
    ensures (c.legacy || c.threshold != 0) ==>
      (r.poolOk <==> ImageListOf(feed, c.total).Ok?) && (r.poolOk ==> r.pool == ImageListOf(feed, c.total).value)
  {
    if c.legacy || c.threshold != 0 then
      match ImageListOf(feed, c.total)
      case Err(e) => s.(pool := [], poolOk := false, events := s.events + [ImageListWarning(e)])
      case Ok(images) => s.(pool := images, poolOk := true)
    else s.(pool := [], poolOk := true)
  }

  /** The run after the quotas are collected: the article list (its failure ends the run),
      the shuffle, the shortfall warning, the images, then every title. */
  function Populate(c: Config, s: Site, list: Http, picks: seq<nat>, feed: Feed, oracles: nat -> Oracle): Site
  {
    match ArticleList(list)
    case Err(e) => s.(events := s.events + [Fatal(e)], halted := true)
    case Ok(found) =>
      var titles := Shuffle(found, picks);
      Loop(c, Fetch(c, Shortfall(c, s, |titles|), feed), titles, oracles, 0)
  }

  /** A failed article list ends the run with that error before anything else is done. */
  lemma PopulateListError(c: Config, s: Site, list: Http, picks: seq<nat>, feed: Feed, oracles: nat -> Oracle)
    requires ArticleList(list).Err?
    ensures Populate(c, s, list, picks, feed, oracles) == s.(events := s.events + [Fatal(ArticleList(list).error)], halted := true)
  {
  }

  /** The warning for a category that returns fewer titles than requested. */
  function Shortfall(c: Config, s: Site, found: nat): (r: Site)
    ensures r.postTypes == s.postTypes && r.current == s.current && r.pool == s.pool && r.used == s.used
    ensures r.labels == s.labels && r.halted == s.halted && r.poolOk == s.poolOk && r.post == s.post
    ensures r.terms == s.terms && r.nextTerm == s.nextTerm && r.cache == s.cache
    ensures found < c.total ==> r.events == s.events + [ShortfallWarning(found)]
    ensures found >= c.total ==> r == s
  {
    if found < c.total then s.(events := s.events + [ShortfallWarning(found)]) else s
  }

  // ---------------------------------------------------------------------------------------
  // Properties of the run

  /** `after` extends `before` with events of articles only. */
  predicate OnlyArticleEvents(before: seq<Event>, after: seq<Event>)
  {
    before <= after && forall i :: |before| <= i < |after| ==> ArticleEvent(after[i])
  }

  /** No featured image among the events added after `before`. */
  predicate NoThumbnails(before: seq<Event>, after: seq<Event>)
  {
    forall i :: |before| <= i < |after| ==> !after[i].Thumbnail?
  }

  /** Every featured image added after `before` is the `empty-file` error. */
  predicate BlankThumbnails(before: seq<Event>, after: seq<Event>)
  {
    forall i :: |before| <= i < |after| && after[i].Thumbnail? ==> after[i].attachment == Failed(EmptyFile)
  }

  lemma EventsTrans(a: seq<Event>, b: seq<Event>, c: seq<Event>)
    requires OnlyArticleEvents(a, b) && OnlyArticleEvents(b, c)
    ensures OnlyArticleEvents(a, c)
    ensures NoThumbnails(a, b) && NoThumbnails(b, c) ==> NoThumbnails(a, c)
    ensures BlankThumbnails(a, b) && BlankThumbnails(b, c) ==> BlankThumbnails(a, c)
  {
    assert forall i :: |a| <= i < |b| ==> c[i] == b[i];
  }

  lemma InsertEmptyPool(c: Config, s: Site, o: Oracle)
    requires !c.legacy && s.pool == []
    ensures var r := Insert(c, s, o);
      r.pool == [] && BlankThumbnails(s.events, r.events)
  {
  }

  lemma InsertUnusablePool(c: Config, s: Site, o: Oracle)
    requires !s.poolOk
    ensures var r := Insert(c, s, o);
      r.pool == s.pool && NoThumbnails(s.events, r.events)
  {
  }

  /** Without the image pool of lib/cli.php (chance zero), an article's draw of 0 still
      reaches `set_image`, with an empty file: the only featured image it can report is the
      `empty-file` error, and the pool stays empty. */
  lemma ArticleEmptyPool(c: Config, s: Site, title: Json, o: Oracle)
    requires !c.legacy && s.pool == []
    ensures var r := Article(c, s, title, o);
      r.pool == [] && BlankThumbnails(s.events, r.events)
  {
    var p := Prepare(c, s, title, o);
    if p.ready {
      InsertEmptyPool(c, p.site, o);
    }
  }

  /** Once the image list is an error no article gets a featured image. */
  lemma ArticleUnusablePool(c: Config, s: Site, title: Json, o: Oracle)
    requires !s.poolOk
    ensures var r := Article(c, s, title, o);
      r.pool == s.pool && NoThumbnails(s.events, r.events)
  {
    var p := Prepare(c, s, title, o);
    if p.ready {
      InsertUnusablePool(c, p.site, o);
    }
  }

  /** `post_category` is only set for post types of the category taxonomy: for any other
      type the previous article's categories stay in `$post`, and an inserted post of a
      category type carries the term IDs of its own article. */
  lemma InsertedCategory(c: Config, s: Site, title: Json, o: Oracle)
    requires var r := Article(c, s, title, o); |r.events| > |s.events| && r.events[|s.events|].Inserted?
    ensures var r := Article(c, s, title, o);
      var category := r.events[|s.events|].post.category;
      && (s.current !in c.categoryTypes ==> category == s.post.category)
      && (s.current in c.categoryTypes ==>
            ArticleResponse(o.response).Ok? &&
            Cats(ArticleResponse(o.response).value, !c.legacy, s.terms, s.nextTerm).result.Ok? &&
            category == Some(Cats(ArticleResponse(o.response).value, !c.legacy, s.terms, s.nextTerm).result.value))
  {
    var p := Prepare(c, s, title, o);
  }

  /** An article is reported as inserted exactly when it was read and `wp_insert_post`
      succeeded, and the post inserted carries the new ID, the page's text, the title, the
      allocated post type and the date `random_date` gave. */
  lemma InsertedPost(c: Config, s: Site, title: Json, o: Oracle)
    ensures var r := Article(c, s, title, o);
      (|r.events| > |s.events| && r.events[|s.events|].Inserted?) <==> (Prepare(c, s, title, o).ready && o.insert.Ok?)
    ensures var r := Article(c, s, title, o);
      |r.events| > |s.events| && r.events[|s.events|].Inserted? ==>
        var e := r.events[|s.events|];
        && ArticleResponse(o.response).Ok? && ArticleText(ArticleResponse(o.response).value).Ok?
        && e.postId == o.insert.value
        && e.post.content == ArticleText(ArticleResponse(o.response).value).value
        && e.post.title == title && e.post.postType == s.current && e.post.date == Some(o.date)
  {
    var p := Prepare(c, s, title, o);
    if p.ready {
      InsertSpec(c, p.site, o);
    }
  }

  /** One turn of the loop records the post type allocated to its title, and the post it
      inserts, if any, has that post type. */
  lemma TurnLabel(c: Config, s: Site, title: Json, o: Oracle)
    ensures var r := Article(c, Allot(s), title, o);
      && r.labels == s.labels + [Allocated(s.postTypes, s.current)]
      && (|r.events| > |s.events| && r.events[|s.events|].Inserted? ==>
            r.events[|s.events|].post.postType == r.labels[|r.labels| - 1])
  {
    InsertedPost(c, Allot(s), title, o);
  }

  /** The image test is `draw <= chance` with the draw in 0..100, for every chance: a
      chance of 100 or more attaches to every inserted post, a negative chance to none, a
      chance of 0 only on a draw of 0, and none of them looks at whether the pool has
      anything left. The featured image is reported for the ID just inserted. */
  lemma AttachTest(c: Config, s: Site, o: Oracle)
    requires s.poolOk && o.insert.Ok?
    ensures var r := Insert(c, s, o);
      && (|r.events| == |s.events| + 2 <==> o.draw <= c.threshold)
      && (|r.events| == |s.events| + 2 ==>
            r.events[|s.events| + 1] == Thumbnail(o.insert.value, AttachmentFor(c, s, o)))
      && (c.threshold >= 100 ==> |r.events| == |s.events| + 2)
      && (c.threshold < 0 ==> |r.events| == |s.events| + 1)
      && (c.threshold == 0 ==> (|r.events| == |s.events| + 2 <==> o.draw == 0))
  {
    InsertSpec(c, s, o);
  }

  /** The quotas are used up by every title the loop reaches, whatever becomes of its
      article: unless the run is ended, after the titles from `i` on they are consumed once
      per title. */
  lemma {:induction false} LoopQuotas(c: Config, s: Site, titles: seq<Json>, oracles: nat -> Oracle, i: nat, n: nat)
    requires i + n == |titles|
    ensures var r := Loop(c, s, titles, oracles, i); !r.halted ==> r.postTypes == Remaining(s, n)
    decreases n, 1
  {
    if n > 0 && !s.halted {
      LoopQuotasTurn(c, s, titles, oracles, i, n, Loop(c, s, titles, oracles, i));
    } else {
      assert Loop(c, s, titles, oracles, i) == s;
    }
  }

  /** The case of `LoopQuotas` where a title is left and the run goes on, for the outcome
      `r` of the loop. */
  lemma {:induction false} LoopQuotasTurn(c: Config, s: Site, titles: seq<Json>, oracles: nat -> Oracle, i: nat, n: nat, r: Site)
    requires i + n == |titles| && n > 0 && !s.halted && r == Loop(c, s, titles, oracles, i)
    ensures !r.halted ==> r.postTypes == Remaining(s, n)
    decreases n, 0
  {
    var s' := LoopNext(c, s, titles, oracles, i);
    LoopQuotas(c, s', titles, oracles, i + 1, n - 1);
    QuotasTurn(s, s', r, Loop(c, s', titles, oracles, i + 1), n);
  }

  /** The quotas of `s` after its next `n` titles. */
  function Remaining(s: Site, n: nat): seq<Quota>
  {
    ConsumeN(s.postTypes, n)
  }

  /** The quotas after a turn of the loop, from the quotas after the rest of it. */
  lemma QuotasTurn(s: Site, s': Site, r: Site, r': Site, n: nat)
    requires n > 0 && Turned(s, s') && r == r'
    requires !r'.halted ==> r'.postTypes == Remaining(s', n - 1)
    ensures !r.halted ==> r.postTypes == Remaining(s, n)
  {
  }

  /** Every title the loop reaches is recorded with the post type allocated to it: unless
      the run is ended, the titles from `i` on receive `Allocation` of the quotas. */
  lemma {:induction false} LoopLabels(c: Config, s: Site, titles: seq<Json>, oracles: nat -> Oracle, i: nat, n: nat)
    requires i + n == |titles|
    ensures var r := Loop(c, s, titles, oracles, i); !r.halted ==> r.labels == Labelled(s, n)
    decreases n, 1
  {
    if n > 0 && !s.halted {
      LoopLabelsTurn(c, s, titles, oracles, i, n, Loop(c, s, titles, oracles, i));
    } else {
      LabelsNone(s, n);
      assert Loop(c, s, titles, oracles, i) == s;
    }
  }

  /** The case of `LoopLabels` where a title is left and the run goes on, for the outcome
      `r` of the loop. */
  lemma {:induction false} LoopLabelsTurn(c: Config, s: Site, titles: seq<Json>, oracles: nat -> Oracle, i: nat, n: nat, r: Site)
    requires i + n == |titles| && n > 0 && !s.halted && r == Loop(c, s, titles, oracles, i)
    ensures !r.halted ==> r.labels == Labelled(s, n)
    decreases n, 0
  {
    var s' := LoopNext(c, s, titles, oracles, i);
    LoopLabels(c, s', titles, oracles, i + 1, n - 1);
    LabelsTurn(s, s', r, Loop(c, s', titles, oracles, i + 1), n);
  }

  /** The labels of `s` followed by the post types of its next `n` titles. */
  function Labelled(s: Site, n: nat): seq<string>
  {
    s.labels + Allocation(s.postTypes, s.current, n)
  }

  /** `s2` is `s` after one allocation that recorded its post type. */
  predicate Turned(s: Site, s2: Site)
  {
    && s2.postTypes == Consume(s.postTypes) && s2.current == Allocated(s.postTypes, s.current)
    && s2.labels == s.labels + [s2.current]
  }

  /** One turn of the loop: the state after the allocation and the article, which keeps
      the allocated quotas and records the allocated post type. */
  lemma LoopNext(c: Config, s: Site, titles: seq<Json>, oracles: nat -> Oracle, i: nat) returns (s': Site)
    requires i < |titles| && !s.halted
    ensures Loop(c, s, titles, oracles, i) == Loop(c, s', titles, oracles, i + 1)
    ensures Turned(s, s')
  {
    s' := Article(c, Allot(s), titles[i], oracles(i));
  }

  /** Recording one allocated post type and then allocating `m` more is allocating `m + 1`. */
  lemma LabelsStep(s: Site, s': Site, n: nat, m: nat)
    requires n == m + 1 && Turned(s, s')
    ensures Labelled(s', m) == Labelled(s, n)
  {
    Assoc(s.labels, [s'.current], Allocation(s'.postTypes, s'.current, m));
  }

  /** With no titles left, the labels are those already recorded. */
  lemma LabelsNone(s: Site, n: nat)
    ensures n == 0 ==> s.labels == Labelled(s, n)
  {
  }

  /** The labels after a turn of the loop, from the labels after the rest of it. */
  lemma LabelsTurn(s: Site, s': Site, r: Site, r': Site, n: nat)
    requires n > 0 && Turned(s, s') && r == r'
    requires !r'.halted ==> r'.labels == Labelled(s', n - 1)
    ensures !r.halted ==> r.labels == Labelled(s, n)
  {
    LabelsStep(s, s', n, n - 1);
  }

  /** The loop only adds article events, never puts an image back into the pool, uses each
      pool entry at most once, and leaves the usability of the pool alone. */
  lemma {:induction false} LoopPool(c: Config, s: Site, titles: seq<Json>, oracles: nat -> Oracle, i: nat)
    ensures var r := Loop(c, s, titles, oracles, i);
      && multiset(r.pool) + multiset(r.used) == multiset(s.pool) + multiset(s.used)
      && |r.pool| <= |s.pool| && r.poolOk == s.poolOk
      && OnlyArticleEvents(s.events, r.events)
    decreases |titles| - i
  {
    if i < |titles| && !s.halted {
      var s' := Article(c, Allot(s), titles[i], oracles(i));
      ArticleSpec(c, Allot(s), titles[i], oracles(i));
      LoopPool(c, s', titles, oracles, i + 1);
      EventsTrans(s.events, s'.events, Loop(c, s', titles, oracles, i + 1).events);
    }
  }

  /** With an empty pool in lib/cli.php, the pool stays empty and every featured image the
      loop reports is the `empty-file` error. */
  lemma {:induction false} LoopEmptyPool(c: Config, s: Site, titles: seq<Json>, oracles: nat -> Oracle, i: nat)
    requires !c.legacy && s.pool == []
    ensures var r := Loop(c, s, titles, oracles, i);
      r.pool == [] && BlankThumbnails(s.events, r.events)
    decreases |titles| - i
  {
    if i < |titles| && !s.halted {
      var s' := Article(c, Allot(s), titles[i], oracles(i));
      ArticleEmptyPool(c, Allot(s), titles[i], oracles(i));
      ArticleSpec(c, Allot(s), titles[i], oracles(i));
      LoopEmptyPool(c, s', titles, oracles, i + 1);
      LoopPool(c, s', titles, oracles, i + 1);
      EventsTrans(s.events, s'.events, Loop(c, s', titles, oracles, i + 1).events);
    }
  }

  /** With an unusable pool, no featured image for any article. */
  lemma {:induction false} LoopUnusablePool(c: Config, s: Site, titles: seq<Json>, oracles: nat -> Oracle, i: nat)
    requires !s.poolOk
    ensures NoThumbnails(s.events, Loop(c, s, titles, oracles, i).events)
    decreases |titles| - i
  {
    if i < |titles| && !s.halted {
      var s' := Article(c, Allot(s), titles[i], oracles(i));
      ArticleUnusablePool(c, Allot(s), titles[i], oracles(i));
      ArticleSpec(c, Allot(s), titles[i], oracles(i));
      LoopUnusablePool(c, s', titles, oracles, i + 1);
      LoopPool(c, s', titles, oracles, i + 1);
      EventsTrans(s.events, s'.events, Loop(c, s', titles, oracles, i + 1).events);
    }
  }

  predicate HasShortfall(events: seq<Event>)
  {
    exists i | 0 <= i < |events| :: events[i].ShortfallWarning?
  }

  lemma PopulateIs(c: Config, s: Site, list: Http, picks: seq<nat>, feed: Feed, oracles: nat -> Oracle)
    requires ArticleList(list).Ok?
    ensures var found := ArticleList(list).value;
      Populate(c, s, list, picks, feed, oracles) ==
      Loop(c, Fetch(c, Shortfall(c, s, |found|), feed), Shuffle(found, picks), oracles, 0)
  {
  }

  /** The shortfall warning is issued exactly when the category returns fewer titles than
      the quotas add up to, and then carries the number found. */
  lemma PopulateShortfall(c: Config, s: Site, list: Http, picks: seq<nat>, feed: Feed, oracles: nat -> Oracle)
    requires ArticleList(list).Ok? && !HasShortfall(s.events)
    ensures var r := Populate(c, s, list, picks, feed, oracles);
      var found := |ArticleList(list).value|;
      && (HasShortfall(r.events) <==> found < c.total)
      && (found < c.total ==> |r.events| > |s.events| && r.events[|s.events|] == ShortfallWarning(found))
  {
    var found := ArticleList(list).value;
    var titles := Shuffle(found, picks);
    var s1 := Shortfall(c, s, |found|);
    var s2 := Fetch(c, s1, feed);
    PopulateIs(c, s, list, picks, feed, oracles);
    LoopPool(c, s2, titles, oracles, 0);
    ShortfallEvents(c, s, |found|, feed);
    ShortfallKept(s2.events, Loop(c, s2, titles, oracles, 0).events);
  }

  /** Before the loop the only shortfall warning is the one `Shortfall` adds. */
  lemma ShortfallEvents(c: Config, s: Site, found: nat, feed: Feed)
    requires !HasShortfall(s.events)
    ensures var r := Fetch(c, Shortfall(c, s, found), feed);
      && s.events <= r.events
      && (HasShortfall(r.events) <==> found < c.total)
      && (found < c.total ==> |r.events| > |s.events| && r.events[|s.events|] == ShortfallWarning(found))
  {
    var s1 := Shortfall(c, s, found);
    var r := Fetch(c, s1, feed);
    if found < c.total {
      assert r.events[|s.events|] == s1.events[|s.events|];
    }
  }

  /** Article events never include a shortfall warning. */
  lemma ShortfallKept(before: seq<Event>, after: seq<Event>)
    requires OnlyArticleEvents(before, after)
    ensures HasShortfall(after) <==> HasShortfall(before)
  {
    if HasShortfall(after) {
      var i :| 0 <= i < |after| && after[i].ShortfallWarning?;
      if i < |before| {
        assert before[i] == after[i];
      }
    }
    if HasShortfall(before) {
      var i :| 0 <= i < |before| && before[i].ShortfallWarning?;
      assert after[i] == before[i];
    }
  }

  /** Unless the run is ended, each returned title uses up one quota, so with enough titles
      every count reaches zero. */
  lemma PopulateQuotas(c: Config, s: Site, list: Http, picks: seq<nat>, feed: Feed, oracles: nat -> Oracle)
    requires ArticleList(list).Ok?
    ensures var r := Populate(c, s, list, picks, feed, oracles);
      !r.halted ==> r.postTypes == ConsumeN(s.postTypes, |ArticleList(list).value|)
  {
    var found := ArticleList(list).value;
    var titles := Shuffle(found, picks);
    var s2 := Fetch(c, Shortfall(c, s, |found|), feed);
    var r := Loop(c, s2, titles, oracles, 0);
    assert Populate(c, s, list, picks, feed, oracles) == r && |titles| == |found| by {
      PopulateIs(c, s, list, picks, feed, oracles);
      assert |multiset(titles)| == |multiset(found)|;
    }
    LoopQuotasFrom(c, s2, titles, oracles, s.postTypes, |found|);
  }

  lemma LoopQuotasFrom(c: Config, s: Site, titles: seq<Json>, oracles: nat -> Oracle, q: seq<Quota>, n: nat)
    requires s.postTypes == q && n == |titles|
    ensures var r := Loop(c, s, titles, oracles, 0); !r.halted ==> r.postTypes == ConsumeN(q, n)
  {
    LoopQuotas(c, s, titles, oracles, 0, n);
    assert Remaining(s, n) == ConsumeN(q, n);
  }

  /** The post types the titles receive, in the order they are reached: unless the run is
      ended, the returned titles receive the allocation of the quotas, one title after
      another (`AllocationBlocks` shows what it is: each post type's quota as one block, in
      map order, and the titles beyond the total for the last post type). */
  lemma PopulateLabels(c: Config, s: Site, list: Http, picks: seq<nat>, feed: Feed, oracles: nat -> Oracle)
    requires ArticleList(list).Ok?
    ensures var r := Populate(c, s, list, picks, feed, oracles);
      !r.halted ==> r.labels == s.labels + Allocation(s.postTypes, s.current, |ArticleList(list).value|)
  {
    var found := ArticleList(list).value;
    var titles := Shuffle(found, picks);
    var s2 := Fetch(c, Shortfall(c, s, |found|), feed);
    var r := Loop(c, s2, titles, oracles, 0);
    assert Populate(c, s, list, picks, feed, oracles) == r && |titles| == |found| by {
      PopulateIs(c, s, list, picks, feed, oracles);
      assert |multiset(titles)| == |multiset(found)|;
    }
    LoopLabelsFrom(c, s2, titles, oracles, s.postTypes, s.current, s.labels, |found|);
  }

  lemma LoopLabelsFrom(c: Config, s: Site, titles: seq<Json>, oracles: nat -> Oracle,
                       qs: seq<Quota>, current: string, labels: seq<string>, n: nat)
    requires s.postTypes == qs && s.current == current && s.labels == labels && n == |titles|
    ensures var r := Loop(c, s, titles, oracles, 0); !r.halted ==> r.labels == labels + Allocation(qs, current, n)
  {
    LoopLabels(c, s, titles, oracles, 0, n);
    assert Labelled(s, n) == labels + Allocation(qs, current, n);
  }

  /** lib/cli.php with `--with-images=none`: no feed is fetched, the pool stays empty, and
      any featured image reported is the `empty-file` error of a draw of 0. */
  lemma PopulateWithoutImages(c: Config, s: Site, list: Http, picks: seq<nat>, feed: Feed, oracles: nat -> Oracle)
    requires !c.legacy && c.threshold == 0 && ArticleList(list).Ok?
    ensures var r := Populate(c, s, list, picks, feed, oracles);
      r.pool == [] && BlankThumbnails(s.events, r.events)
  {
    var found := ArticleList(list).value;
    var titles := Shuffle(found, picks);
    var s1 := Shortfall(c, s, |found|);
    var s2 := Fetch(c, s1, feed);
    PopulateIs(c, s, list, picks, feed, oracles);
    LoopEmptyPool(c, s2, titles, oracles, 0);
    LoopPool(c, s2, titles, oracles, 0);
  }

  /** A failed image list means no featured image for the whole run. */
  lemma PopulateFeedError(c: Config, s: Site, list: Http, picks: seq<nat>, feed: Feed, oracles: nat -> Oracle)
    requires c.legacy || c.threshold != 0
    requires ArticleList(list).Ok? && ImageListOf(feed, c.total).Err?
    ensures NoThumbnails(s.events, Populate(c, s, list, picks, feed, oracles).events)
  {
    var found := ArticleList(list).value;
    var titles := Shuffle(found, picks);
    var s1 := Shortfall(c, s, |found|);
    var s2 := Fetch(c, s1, feed);
    PopulateIs(c, s, list, picks, feed, oracles);
    LoopUnusablePool(c, s2, titles, oracles, 0);
    LoopPool(c, s2, titles, oracles, 0);
    FetchErrorEvents(c, s, |found|, feed);
    NoThumbnailsTrans(s.events, s2.events, Loop(c, s2, titles, oracles, 0).events);
  }

  /** Before the loop, a failed image list adds its warning and perhaps the shortfall one. */
  lemma FetchErrorEvents(c: Config, s: Site, found: nat, feed: Feed)
    requires c.legacy || c.threshold != 0
    requires ImageListOf(feed, c.total).Err?
    ensures var r := Fetch(c, Shortfall(c, s, found), feed);
      s.events <= r.events && NoThumbnails(s.events, r.events)
  {
  }

  lemma NoThumbnailsTrans(a: seq<Event>, b: seq<Event>, c: seq<Event>)
    requires a <= b <= c && NoThumbnails(a, b) && NoThumbnails(b, c)
    ensures NoThumbnails(a, c)
  {
    assert forall i :: |a| <= i < |b| ==> c[i] == b[i];
  }

  /** Each image of the list is used at most as often as it occurs in it: what is left in
      the pool and what was used together make up the fetched list. */
  lemma PopulatePool(c: Config, s: Site, list: Http, picks: seq<nat>, feed: Feed, oracles: nat -> Oracle)
    requires c.legacy || c.threshold != 0
    requires ArticleList(list).Ok? && ImageListOf(feed, c.total).Ok?
    ensures var r := Populate(c, s, list, picks, feed, oracles);
      multiset(r.pool) + multiset(r.used) == multiset(ImageListOf(feed, c.total).value) + multiset(s.used)
  {
    var found := ArticleList(list).value;
    var titles := Shuffle(found, picks);
    var s2 := Fetch(c, Shortfall(c, s, |found|), feed);
    PopulateIs(c, s, list, picks, feed, oracles);
    LoopPool(c, s2, titles, oracles, 0);
  }
}
