/**
 * The news service: Google News feed items become articles whose source is cut from the end of
 * the headline, the first fifteen are ranked so that articles from preferred publishers come
 * first, the first eight are kept, and a list of articles is written out as numbered lines for
 * the prompt. The feed itself (the HTTP request and the RSS parser) is a parameter: the parsed
 * items, or the error that fetching or parsing raised.
 */
module News {
  import opened Wrappers
  import opened Strings

  /** The publishers preferred when the caller names none, in their listed order. */
  const DEFAULT_SOURCES: seq<string> := [
    "Wall Street Journal", "Bloomberg", "Reuters", "Financial Times", "CNBC", "Barron's",
    "Investor's Business Daily", "Yahoo Finance", "Seeking Alpha" ]

  /** How many feed items are looked at, and how many articles are returned. */
  const FEED_ITEMS := 15
  const MAX_ARTICLES := 8

  /** Google News headlines end with `" - "` and the publisher. */
  const SEPARATOR := " - "

  /** A feed item as the RSS parser gives it; a field the feed lacks is `None`. */
  datatype FeedItem = FeedItem(title: Option<string>, link: Option<string>,
                               pubDate: Option<string>, contentSnippet: Option<string>)

  datatype Article = Article(title: string, source: string, link: Option<string>,
                             pubDate: Option<string>, snippet: string)

  // ---------------------------------------------------------------------------------------------
  // Headline and publisher
  // ---------------------------------------------------------------------------------------------

  /**
   * The headline and the publisher of a feed title: the title is split at every `" - "`; with
   * more than one piece, the last piece, trimmed, is the publisher and the others, joined again
   * by `" - "` and trimmed, are the headline; otherwise the publisher is `"Unknown"`.
   */
  function SplitTitle(title: string): (r: (string, string))
    ensures Trimmed(r.0)
    ensures r.1 == "Unknown" || Trimmed(r.1)
  {
    var parts := Split(title, SEPARATOR);
    if |parts| > 1 then (Trim(Join(parts[..|parts| - 1], SEPARATOR)), Trim(parts[|parts| - 1]))
    else (Trim(Join(parts, SEPARATOR)), "Unknown")
  }

  /**
   * A title without `" - "` is all headline, from an unknown publisher; a title with it is a
   * headline, `" - "` and a last part without `" - "`, and the publisher is that last part.
   */
  lemma SplitTitleCases(title: string)
    ensures !Contains(title, SEPARATOR) ==> SplitTitle(title) == (Trim(title), "Unknown")
    ensures Contains(title, SEPARATOR) ==>
              exists front, last :: && title == front + SEPARATOR + last
                                    && !Contains(last, SEPARATOR)
                                    && SplitTitle(title) == (Trim(front), Trim(last))
  {
    var parts := Split(title, SEPARATOR);
    SplitSingleIff(title, SEPARATOR);
    JoinSplit(title, SEPARATOR);
    if |parts| > 1 {
      var front, last := Join(parts[..|parts| - 1], SEPARATOR), parts[|parts| - 1];
      JoinLast(parts, SEPARATOR);
      SplitPiecesFree(title, SEPARATOR);
      assert title == front + SEPARATOR + last;
    }
  }

  /** The article of a feed item; a title the feed lacks makes the split throw. */
  function ToArticle(item: FeedItem): (r: Option<Article>)
    ensures r.Some? <==> item.title.Some?
    ensures r.Some? ==> && (r.value.title, r.value.source) == SplitTitle(item.title.value)
                        && r.value.link == item.link && r.value.pubDate == item.pubDate
                        && r.value.snippet == item.contentSnippet.GetOr("")
  {
    match item.title
    case None => None
    case Some(t) =>
      var split := SplitTitle(t);
      Some(Article(split.0, split.1, item.link, item.pubDate, item.contentSnippet.GetOr("")))
  }

  /** The articles of the items, in order, or `None` when any item has no title. */
  function ToArticles(items: seq<FeedItem>): (r: Option<seq<Article>>)
    ensures r.Some? ==> |r.value| == |items|
    decreases |items|
  {
    if |items| == 0 then Some([])
    else
      var first, rest := ToArticle(items[0]), ToArticles(items[1..]);
      if first.Some? && rest.Some? then Some([first.value] + rest.value) else None
  }

  /** The items give articles exactly when every item has a title. */
  lemma {:induction false} ToArticlesDefined(items: seq<FeedItem>)
    ensures ToArticles(items).Some? <==> forall k :: 0 <= k < |items| ==> items[k].title.Some?
    decreases |items|
  {
    if |items| > 0 {
      ToArticlesDefined(items[1..]);
      assert forall k :: 0 < k < |items| ==> items[1..][k - 1] == items[k];
    }
  }

  /** The article at each position comes from the item at that position. */
  lemma {:induction false} ToArticlesAt(items: seq<FeedItem>, k: nat)
    requires ToArticles(items).Some? && k < |items|
    ensures ToArticle(items[k]).Some? && ToArticles(items).value[k] == ToArticle(items[k]).value
    decreases |items|
  {
    if k == 0 {
      ToArticlesCons(items);
    } else {
      ToArticlesShift(items, k);
      ToArticlesAt(items[1..], k - 1);
      assert items[1..][k - 1] == items[k];
    }
  }

  /** Past the first item, the articles are those of the rest, one position earlier. */
  lemma ToArticlesShift(items: seq<FeedItem>, k: nat)
    requires ToArticles(items).Some? && 0 < k < |items|
    ensures ToArticles(items[1..]).Some?
    ensures ToArticles(items).value[k] == ToArticles(items[1..]).value[k - 1]
  {
    ToArticlesCons(items);
  }

  /** The articles of items with titles: the first item's article, then those of the rest. */
  lemma ToArticlesCons(items: seq<FeedItem>)
    requires ToArticles(items).Some? && |items| > 0
    ensures ToArticle(items[0]).Some? && ToArticles(items[1..]).Some?
    ensures ToArticles(items).value == [ToArticle(items[0]).value] + ToArticles(items[1..]).value
  {
  }

  // ---------------------------------------------------------------------------------------------
  // Preferred publishers
  // ---------------------------------------------------------------------------------------------

  /** Some preference, lower-cased, occurs in the lower-cased source. */
  function IsPreferred(source: string, prefs: seq<string>): (r: bool)
    ensures |prefs| == 0 ==> !r
    ensures "" in prefs ==> r
  {
    assert "" in prefs ==> OccursAt(ToLower(source), ToLower(""), 0);
    exists s | s in prefs :: Contains(ToLower(source), ToLower(s))
  }

  /** Matching ignores the case of the letters of the source. */
  lemma PreferredIgnoresCase(source: string, prefs: seq<string>)
    ensures IsPreferred(source, prefs) <==> IsPreferred(ToLower(source), prefs)
  {
    assert ToLower(ToLower(source)) == ToLower(source);
  }

  /** The articles whose preference is `preferred`, in their order. */
  function Group(xs: seq<Article>, prefs: seq<string>, preferred: bool): (r: seq<Article>)
    ensures |r| <= |xs|
    decreases |xs|
  {
    if |xs| == 0 then []
    else
      var last := xs[|xs| - 1];
      Group(xs[..|xs| - 1], prefs, preferred)
        + (if IsPreferred(last.source, prefs) == preferred then [last] else [])
  }

  /**
   * The order a stable sort with the source's comparator gives: the preferred articles, then
   * the others, each group in its original order.
   */
  function Prioritized(xs: seq<Article>, prefs: seq<string>): (r: seq<Article>)
    ensures |r| == |xs|
  {
    GroupsPartition(xs, prefs);
    assert |multiset(Group(xs, prefs, true) + Group(xs, prefs, false))| == |multiset(xs)|;
    Group(xs, prefs, true) + Group(xs, prefs, false)
  }

  /** No article that is not preferred comes before one that is. */
  predicate PreferredFirst(xs: seq<Article>, prefs: seq<string>) {
    forall i, j :: 0 <= i < j < |xs| && IsPreferred(xs[j].source, prefs) ==>
                   IsPreferred(xs[i].source, prefs)
  }

  /** Every article of a group has that group's preference. */
  lemma {:induction false} GroupMembers(xs: seq<Article>, prefs: seq<string>, preferred: bool)
    ensures forall k :: 0 <= k < |Group(xs, prefs, preferred)| ==>
              IsPreferred(Group(xs, prefs, preferred)[k].source, prefs) == preferred
    decreases |xs|
  {
    if |xs| > 0 {
      GroupMembers(xs[..|xs| - 1], prefs, preferred);
    }
  }

  /** The group of a sequence whose articles all have the same preference. */
  lemma {:induction false} GroupUniform(xs: seq<Article>, prefs: seq<string>, preferred: bool)
    requires forall k :: 0 <= k < |xs| ==> IsPreferred(xs[k].source, prefs) == preferred
    ensures Group(xs, prefs, preferred) == xs && Group(xs, prefs, !preferred) == []
    decreases |xs|
  {
    if |xs| > 0 {
      GroupUniform(xs[..|xs| - 1], prefs, preferred);
      assert xs[..|xs| - 1] + [xs[|xs| - 1]] == xs;
    }
  }

  /** The group of a concatenation is the concatenation of the groups. */
  lemma {:induction false} GroupConcat(xs: seq<Article>, ys: seq<Article>, prefs: seq<string>,
                                       preferred: bool)
    ensures Group(xs + ys, prefs, preferred) == Group(xs, prefs, preferred) + Group(ys, prefs, preferred)
    decreases |ys|
  {
    if |ys| == 0 {
      assert xs + ys == xs;
    } else {
      var init := ys[..|ys| - 1];
      assert (xs + ys)[..|xs + ys| - 1] == xs + init;
      GroupConcat(xs, init, prefs, preferred);
    }
  }

  /** Taking one more article adds it to its group. */
  lemma GroupSnoc(xs: seq<Article>, x: Article, prefs: seq<string>, preferred: bool)
    ensures Group(xs + [x], prefs, preferred)
         == Group(xs, prefs, preferred) + (if IsPreferred(x.source, prefs) == preferred then [x] else [])
  {
    assert (xs + [x])[..|xs|] == xs;
  }

  /** The two groups share out the articles: together they are a permutation of them. */
  lemma {:induction false} GroupsPartition(xs: seq<Article>, prefs: seq<string>)
    ensures multiset(Group(xs, prefs, true)) + multiset(Group(xs, prefs, false)) == multiset(xs)
    decreases |xs|
  {
    if |xs| > 0 {
      var init := xs[..|xs| - 1];
      GroupsPartition(init, prefs);
      assert xs == init + [xs[|xs| - 1]];
    }
  }

  /** Prioritizing keeps the articles: it is a permutation. */
  lemma PrioritizedPermutes(xs: seq<Article>, prefs: seq<string>)
    ensures multiset(Prioritized(xs, prefs)) == multiset(xs)
    ensures |Prioritized(xs, prefs)| == |xs|
  {
    GroupsPartition(xs, prefs);
    assert |multiset(Prioritized(xs, prefs))| == |multiset(xs)|;
  }

  /** Every preferred article comes before every other one. */
  lemma PrioritizedPreferredFirst(xs: seq<Article>, prefs: seq<string>)
    ensures PreferredFirst(Prioritized(xs, prefs), prefs)
  {
    GroupMembers(xs, prefs, true);
    GroupMembers(xs, prefs, false);
    var p, o := Group(xs, prefs, true), Group(xs, prefs, false);
    var r := p + o;
    assert forall k :: 0 <= k < |p| ==> r[k] == p[k];
    assert forall k :: |p| <= k < |r| ==> r[k] == o[k - |p|];
  }

  /** Within each group the articles keep the order they had: the partition is stable. */
  lemma PrioritizedStable(xs: seq<Article>, prefs: seq<string>)
    ensures Group(Prioritized(xs, prefs), prefs, true) == Group(xs, prefs, true)
    ensures Group(Prioritized(xs, prefs), prefs, false) == Group(xs, prefs, false)
  {
    var p, o := Group(xs, prefs, true), Group(xs, prefs, false);
    GroupMembers(xs, prefs, true);
    GroupMembers(xs, prefs, false);
    GroupUniform(p, prefs, true);
    GroupUniform(o, prefs, false);
    GroupConcat(p, o, prefs, true);
    GroupConcat(p, o, prefs, false);
  }

  /** A sequence with the preferred articles first is its preferred group, then the others. */
  lemma {:induction false} PreferredFirstSplits(r: seq<Article>, prefs: seq<string>)
    requires PreferredFirst(r, prefs)
    ensures r == Group(r, prefs, true) + Group(r, prefs, false)
    decreases |r|
  {
    if |r| > 0 {
      var init, x := r[..|r| - 1], r[|r| - 1];
      assert r == init + [x];
      GroupSnoc(init, x, prefs, true);
      GroupSnoc(init, x, prefs, false);
      if IsPreferred(x.source, prefs) {
        assert forall k :: 0 <= k < |init| ==> init[k] == r[k];
        GroupUniform(init, prefs, true);
      } else {
        PreferredFirstPrefix(r, prefs, |r| - 1);
        PreferredFirstSplits(init, prefs);
      }
    }
  }

  /** A prefix of a sequence with the preferred articles first has them first too. */
  lemma PreferredFirstPrefix(r: seq<Article>, prefs: seq<string>, n: nat)
    requires PreferredFirst(r, prefs) && n <= |r|
    ensures PreferredFirst(r[..n], prefs)
  {
    assert forall k :: 0 <= k < n ==> r[..n][k] == r[k];
  }

  /**
   * The prioritized order is the only order a stable sort by the comparator can give: with the
   * preferred articles first and each group in its original order, a sequence is the
   * prioritized one.
   */
  lemma StableSortIsPrioritized(xs: seq<Article>, r: seq<Article>, prefs: seq<string>)
    requires PreferredFirst(r, prefs)
    requires Group(r, prefs, true) == Group(xs, prefs, true)
    requires Group(r, prefs, false) == Group(xs, prefs, false)
    ensures r == Prioritized(xs, prefs)
  {
    PreferredFirstSplits(r, prefs);
  }

  /** With no preferences, nothing is preferred and the feed order is kept. */
  lemma NoPreferencesKeepOrder(xs: seq<Article>)
    ensures Prioritized(xs, []) == xs
  {
    GroupUniform(xs, [], false);
  }

  /**
   * The comparator's sort, done in place as the source's `articles.sort(...)`: each preferred
   * article is moved back past the others seen so far, which keeps both groups in order.
   */
  method PrioritizeInPlace(a: array<Article>, prefs: seq<string>)
    modifies a
    ensures a[..] == Prioritized(old(a[..]), prefs)
  {
    ghost var orig := a[..];
    var k := 0;
    var i := 0;
    while i < a.Length
      invariant 0 <= k <= i <= a.Length
      invariant a[..i] == Prioritized(orig[..i], prefs)
      invariant k == |Group(orig[..i], prefs, true)|
      invariant a[i..] == orig[i..]
    {
      if IsPreferred(a[i].source, prefs) {
        ghost var before := a[..];
        ShiftAndPlace(a, k, i);
        MovedSlices(before, a[..], k, i);
        PreferredStep(before, a[..], orig, i, k, prefs);
        k := k + 1;
      } else {
        OtherStep(a[..], orig, i, k, prefs);
      }
      i := i + 1;
    }
    assert orig[..a.Length] == orig;
  }

  /** A preferred article moved in front of the others seen so far extends the prioritized order. */
  lemma PreferredStep(before: seq<Article>, after: seq<Article>, orig: seq<Article>, i: nat, k: nat,
                      prefs: seq<string>)
    requires i < |before| == |after| == |orig|
    requires before[..i] == Prioritized(orig[..i], prefs) && k == |Group(orig[..i], prefs, true)|
    requires before[i..] == orig[i..] && IsPreferred(orig[i].source, prefs)
    requires after[..k] == before[..k] && after[k] == before[i] && after[k + 1..i + 1] == before[k..i]
    requires after[i + 1..] == before[i + 1..]
    ensures after[..i + 1] == Prioritized(orig[..i + 1], prefs)
    ensures k + 1 == |Group(orig[..i + 1], prefs, true)|
    ensures after[i + 1..] == orig[i + 1..]
  {
    assert before[i] == before[i..][0];
    var p, o := Group(orig[..i], prefs, true), Group(orig[..i], prefs, false);
    assert orig[..i + 1] == orig[..i] + [orig[i]];
    GroupSnoc(orig[..i], orig[i], prefs, true);
    GroupSnoc(orig[..i], orig[i], prefs, false);
    assert before[..k] == p && before[k..i] == o;
    assert after[..i + 1] == after[..k] + [after[k]] + after[k + 1..i + 1];
  }

  /** The pointwise effect of moving `before[i]` to position `k`, stated on slices. */
  lemma MovedSlices<T>(before: seq<T>, after: seq<T>, k: nat, i: nat)
    requires k <= i < |before| == |after|
    requires forall t :: 0 <= t < k ==> after[t] == before[t]
    requires forall t :: k < t <= i ==> after[t] == before[t - 1]
    requires forall t :: i < t < |after| ==> after[t] == before[t]
    ensures after[..k] == before[..k] && after[k + 1..i + 1] == before[k..i]
    ensures after[i + 1..] == before[i + 1..]
  {
  }

  /** An article that is not preferred, left where it is, extends the prioritized order. */
  lemma OtherStep(a: seq<Article>, orig: seq<Article>, i: nat, k: nat, prefs: seq<string>)
    requires i < |a| == |orig|
    requires a[..i] == Prioritized(orig[..i], prefs) && k == |Group(orig[..i], prefs, true)|
    requires a[i..] == orig[i..] && !IsPreferred(orig[i].source, prefs)
    ensures a[..i + 1] == Prioritized(orig[..i + 1], prefs)
    ensures k == |Group(orig[..i + 1], prefs, true)|
    ensures a[i + 1..] == orig[i + 1..]
  {
    assert a[i] == a[i..][0];
    assert orig[..i + 1] == orig[..i] + [orig[i]];
    GroupSnoc(orig[..i], orig[i], prefs, true);
    GroupSnoc(orig[..i], orig[i], prefs, false);
    assert a[..i + 1] == a[..i] + [a[i]];
  }

  /** Moves `a[i]` to position `k`, shifting `a[k..i]` one place right. */
  method ShiftAndPlace(a: array<Article>, k: nat, i: nat)
    requires k <= i < a.Length
    modifies a
    ensures forall t :: 0 <= t < k ==> a[t] == old(a[t])
    ensures a[k] == old(a[i])
    ensures forall t :: k < t <= i ==> a[t] == old(a[t - 1])
    ensures forall t :: i < t < a.Length ==> a[t] == old(a[t])
  {
    var x := a[i];
    var j := i;
    while j > k
      invariant k <= j <= i
      invariant forall t :: 0 <= t < j ==> a[t] == old(a[t])
      invariant forall t :: j < t <= i ==> a[t] == old(a[t - 1])
      invariant forall t :: i < t < a.Length ==> a[t] == old(a[t])
    {
      a[j] := a[j - 1];
      j := j - 1;
    }
    a[k] := x;
  }

  // ---------------------------------------------------------------------------------------------
  // Fetching
  // ---------------------------------------------------------------------------------------------

  /** The first `n` elements, or all of them when there are fewer. */
  function Take<T>(xs: seq<T>, n: nat): (r: seq<T>)
    ensures |r| <= n && |r| <= |xs| && r == xs[..|r|]
    ensures |xs| <= n ==> r == xs
    ensures n <= |xs| ==> |r| == n
  {
    if |xs| <= n then xs else xs[..n]
  }

  /**
   * What `fetchCompanyNews` returns for a feed: nothing when fetching or parsing failed or an
   * item has no title, otherwise the first eight of the first fifteen articles, prioritized. An
   * omitted preference list is the default one.
   */
  function CompanyNews(feed: Result<seq<FeedItem>, string>, preferredSources: Option<seq<string>>)
    : (r: seq<Article>)
    ensures |r| <= MAX_ARTICLES
    ensures feed.Failure? ==> r == []
    ensures feed.Success? ==> |r| <= |feed.value|
  {
    match feed
    case Failure(_) => []
    case Success(items) =>
      match ToArticles(Take(items, FEED_ITEMS))
      case None => []
      case Some(articles) =>
        PrioritizedPermutes(articles, preferredSources.GetOr(DEFAULT_SOURCES));
        Take(Prioritized(articles, preferredSources.GetOr(DEFAULT_SOURCES)), MAX_ARTICLES)
  }

  /** `fetchCompanyNews`: map the first fifteen items, sort them in place, keep eight. */
  method FetchCompanyNews(feed: Result<seq<FeedItem>, string>, preferredSources: Option<seq<string>>)
    returns (r: seq<Article>)
    ensures r == CompanyNews(feed, preferredSources)
  {
    if feed.Failure? {
      return [];
    }
    var mapped := ToArticles(Take(feed.value, FEED_ITEMS));
    if mapped.None? {
      return [];
    }
    var articles := mapped.value;
    var a := new Article[|articles|](k requires 0 <= k < |articles| => articles[k]);
    assert a[..] == articles;
    PrioritizeInPlace(a, preferredSources.GetOr(DEFAULT_SOURCES));
    if a.Length <= MAX_ARTICLES {
      r := a[..];
    } else {
      r := a[..MAX_ARTICLES];
    }
  }

  /**
   * Every article returned, preferred ones first, comes from one of the first fifteen feed
   * items, and no item gives more than one article.
   */
  lemma CompanyNewsFromFeed(items: seq<FeedItem>, preferredSources: Option<seq<string>>)
    requires ToArticles(Take(items, FEED_ITEMS)).Some?
    ensures var r := CompanyNews(Success(items), preferredSources);
            var articles := ToArticles(Take(items, FEED_ITEMS)).value;
            && PreferredFirst(r, preferredSources.GetOr(DEFAULT_SOURCES))
            && multiset(r) <= multiset(articles)
            && |r| == if |articles| < MAX_ARTICLES then |articles| else MAX_ARTICLES
  {
    var prefs := preferredSources.GetOr(DEFAULT_SOURCES);
    var articles := ToArticles(Take(items, FEED_ITEMS)).value;
    PrioritizedPermutes(articles, prefs);
    PrioritizedPreferredFirst(articles, prefs);
    TakeKeepsOrder(Prioritized(articles, prefs), MAX_ARTICLES, prefs);
  }

  /** A prefix keeps the preferred articles first and takes no article twice. */
  lemma TakeKeepsOrder(xs: seq<Article>, n: nat, prefs: seq<string>)
    requires PreferredFirst(xs, prefs)
    ensures PreferredFirst(Take(xs, n), prefs) && multiset(Take(xs, n)) <= multiset(xs)
  {
    var r := Take(xs, n);
    assert xs == r + xs[|r|..];
    assert multiset(xs) == multiset(r) + multiset(xs[|r|..]);
  }

  /** With an empty preference list the articles keep the feed order. */
  lemma CompanyNewsWithoutPreferences(items: seq<FeedItem>)
    requires ToArticles(Take(items, FEED_ITEMS)).Some?
    ensures CompanyNews(Success(items), Some([]))
         == Take(ToArticles(Take(items, FEED_ITEMS)).value, MAX_ARTICLES)
  {
    NoPreferencesKeepOrder(ToArticles(Take(items, FEED_ITEMS)).value);
  }

  // ---------------------------------------------------------------------------------------------
  // The news list of the prompt
  // ---------------------------------------------------------------------------------------------

  const NO_NEWS := "No recent news articles found."

  /** Line `n` of the news list; `date` stands for `new Date(pubDate).toLocaleDateString()`. */
  function NewsLine(n: nat, a: Article, date: Option<string> -> string): string {
    NatToString(n) + ". \"" + a.title + "\" (" + a.source + ", " + date(a.pubDate) + ")"
  }

  /** The lines of the news list, numbered from 1 in the order of the articles. */
  function NewsLines(articles: seq<Article>, date: Option<string> -> string): (r: seq<string>)
    ensures |r| == |articles|
  {
    seq(|articles|, k requires 0 <= k < |articles| => NewsLine(k + 1, articles[k], date))
  }

  /** `formatNewsForPrompt`. */
  function FormatNewsForPrompt(articles: seq<Article>, date: Option<string> -> string): (r: string)
    ensures |articles| == 0 ==> r == NO_NEWS
  {
    if |articles| == 0 then NO_NEWS else Join(NewsLines(articles, date), "\n")
  }

  /**
   * When no headline, publisher or date holds a line break, the news list has one line per
   * article, line `k` being article `k` numbered `k + 1`.
   */
  lemma NewsListLines(articles: seq<Article>, date: Option<string> -> string)
    requires |articles| > 0
    requires forall k :: 0 <= k < |articles| ==>
               '\n' !in articles[k].title && '\n' !in articles[k].source
               && '\n' !in date(articles[k].pubDate)
    ensures var lines := Split(FormatNewsForPrompt(articles, date), "\n");
            && |lines| == |articles|
            && forall k :: 0 <= k < |articles| ==> lines[k] == NewsLine(k + 1, articles[k], date)
  {
    var lines := NewsLines(articles, date);
    NewsLinesHaveNoBreak(articles, date);
    assert FormatNewsForPrompt(articles, date) == Join(lines, ['\n']);
    SplitJoinChar(lines, '\n');
  }

  /** No news line has a line break when no headline, publisher or date has one. */
  lemma NewsLinesHaveNoBreak(articles: seq<Article>, date: Option<string> -> string)
    requires forall k :: 0 <= k < |articles| ==>
               '\n' !in articles[k].title && '\n' !in articles[k].source
               && '\n' !in date(articles[k].pubDate)
    ensures forall k :: 0 <= k < |articles| ==> '\n' !in NewsLines(articles, date)[k]
  {
    forall k | 0 <= k < |articles|
      ensures '\n' !in NewsLines(articles, date)[k]
    {
      NewsLineHasNoBreak(k + 1, articles[k], date);
    }
  }

  /** A news line has no line break when its headline, publisher and date have none. */
  lemma NewsLineHasNoBreak(n: nat, a: Article, date: Option<string> -> string)
    requires '\n' !in a.title && '\n' !in a.source && '\n' !in date(a.pubDate)
    ensures '\n' !in NewsLine(n, a, date)
  {
    var digits := NatToString(n);
    assert forall m :: 0 <= m < |digits| ==> digits[m] != '\n';
  }
}
