/**
 The news handlers: the published list, the detail view that records a view
 marker and bumps the counter, and the administrator's create form with its
 required-field, category and flag parsing rules.
 */
module NewsViews {
  import opened Common
  import opened Sorting
  import opened UserModels
  import opened NewsModels

  const AdminsCreateOnly := "Solo administradores pueden crear noticias"
  const CategoryNotFound := "Categoría no encontrada"

  /** The required fields, in the order they are checked. */
  const RequiredFields: seq<string> := ["title", "summary", "content"]

  function RequiredMessage(field: string): string {
    "El campo " + field + " es requerido"
  }

  // ---------------------------------------------------------------------
  // news_list

  /** `Meta.ordering = ['-created_at']`. */
  function NewestFirst(): (News, News) -> bool {
    KeyDesc((n: News) => n.createdAt)
  }

  function Published(news: seq<News>): seq<News> {
    Filter(news, (n: News) => n.isPublished)
  }

  /** `news_list`: every published item, newest first (`[]` when there is none). */
  function NewsList(news: seq<News>): seq<News> {
    Sort(Published(news), NewestFirst())
  }

  lemma NewsListSpec(news: seq<News>)
    ensures SortedBy(NewsList(news), NewestFirst())
    ensures forall i :: 0 <= i < |NewsList(news)| ==> NewsList(news)[i] in news && NewsList(news)[i].isPublished
    ensures forall n :: n in news && n.isPublished ==> n in NewsList(news)
    ensures multiset(NewsList(news)) == multiset(Published(news))
  {
    KeyOrdersArePreorders((n: News) => n.createdAt);
    SortSorted(Published(news), NewestFirst());
    SamePublishedRows(news, NewsList(news));
  }

  /** A list holding the published rows, as often as they are stored, holds exactly the published rows. */
  lemma SamePublishedRows(news: seq<News>, r: seq<News>)
    requires multiset(r) == multiset(Published(news))
    ensures forall i :: 0 <= i < |r| ==> r[i] in news && r[i].isPublished
    ensures forall n :: n in news && n.isPublished ==> n in r
  {
    var p := Published(news);
    forall i | 0 <= i < |r| ensures r[i] in news && r[i].isPublished {
      assert r[i] in multiset(p);
      var j :| 0 <= j < |p| && p[j] == r[i];
    }
    forall n | n in news && n.isPublished ensures n in r {
      var i :| 0 <= i < |news| && news[i] == n;
      assert n in p;
      assert n in multiset(r);
    }
  }

  /** The list is empty exactly when nothing is published. */
  lemma NewsListEmptyIff(news: seq<News>)
    ensures NewsList(news) == [] <==> forall n :: n in news ==> !n.isPublished
  {
    NewsListSpec(news);
    if forall n :: n in news ==> !n.isPublished {
      FilterNone(news, (n: News) => n.isPublished);
    } else {
      var n :| n in news && n.isPublished;
      assert n in NewsList(news);
    }
  }

  // ---------------------------------------------------------------------
  // news_detail

  /** `get_object_or_404(News, id=news_id, is_published=True)`: the row's index. */
  function FindPublished(news: seq<News>, id: nat): (r: Option<nat>)
    ensures r.Some? ==> r.value < |news| && news[r.value].id == id && news[r.value].isPublished
    ensures r.None? <==> forall j :: 0 <= j < |news| ==> !(news[j].id == id && news[j].isPublished)
  {
    if news == [] then None
    else if news[0].id == id && news[0].isPublished then Some(0)
    else match FindPublished(news[1..], id)
      case None =>
        assert forall j :: 1 <= j < |news| ==> news[j] == news[1..][j - 1];
        None
      case Some(k) => Some(k + 1)
  }

  /**
   The lookup as written: the 404 raised by the lookup is an exception like
   any other, and the handler's catch-all turns it into a 500.
   */
  function DetailLookupAsWritten(news: seq<News>, id: nat): (r: Result<nat>)
    ensures r.Err? <==> FindPublished(news, id).None?
    ensures r.Err? ==> r.failure == ServerError
  {
    match FindPublished(news, id)
    case None => Err(ServerError)
    case Some(j) => Ok(j)
  }

  /** The lookup as intended: an unpublished or unknown id is a 404. */
  function DetailLookup(news: seq<News>, id: nat): (r: Result<nat>)
    ensures r.Err? <==> FindPublished(news, id).None?
    ensures r.Err? ==> r.failure == NotFound
    ensures r.Ok? ==> r == DetailLookupAsWritten(news, id)
  {
    match FindPublished(news, id)
    case None => Err(NotFound)
    case Some(j) => Ok(j)
  }

  /** Every unpublished or missing id answers 500 as written where 404 is meant. */
  lemma UnpublishedDetailDiscrepancy(news: seq<News>, id: nat)
    requires forall j :: 0 <= j < |news| ==> !(news[j].id == id && news[j].isPublished)
    ensures DetailLookupAsWritten(news, id).failure.Status() == 500
    ensures DetailLookup(news, id).failure.Status() == 404
  {
  }

  /** The state `news_detail` reads and writes: the news rows and the (news, user) view markers. */
  datatype Board = Board(news: seq<News>, views: set<(nat, UserId)>)

  /** One row after `views_count += 1; save()`. */
  function Counted(n: News): (r: News)
    ensures r.viewsCount == n.viewsCount + 1
    ensures r.(viewsCount := n.viewsCount) == n
  {
    n.(viewsCount := n.viewsCount + 1)
  }

  /**
   `news_detail` on values: a marker for (news, user) is created if absent, the
   counter goes up by one, and the updated row is returned.
   */
  function ViewNews(b: Board, id: nat, user: UserId): (Board, Result<News>) {
    match DetailLookup(b.news, id)
    case Err(failure) => (b, Err(failure))
    case Ok(j) =>
      var row := Counted(b.news[j]);
      (Board(b.news[j := row], b.views + {(id, user)}), Ok(row))
  }

  /** `k` successive `news_detail` calls by the same user. */
  function ViewTimes(b: Board, id: nat, user: UserId, k: nat): Board
    decreases k
  {
    if k == 0 then b else ViewTimes(ViewNews(b, id, user).0, id, user, k - 1)
  }

  /** A view changes only the viewed row's counter and adds only its own marker. */
  lemma ViewNewsSpec(b: Board, id: nat, user: UserId)
    ensures FindPublished(b.news, id).None? ==> ViewNews(b, id, user) == (b, Err(NotFound))
    ensures FindPublished(b.news, id).Some? ==>
      var j := FindPublished(b.news, id).value;
      var (b', r) := ViewNews(b, id, user);
      && |b'.news| == |b.news|
      && b'.news[j].viewsCount == b.news[j].viewsCount + 1
      && (forall i :: 0 <= i < |b.news| && i != j ==> b'.news[i] == b.news[i])
      && b'.views == b.views + {(id, user)}
      && r == Ok(b'.news[j])
    ensures FindPublished(ViewNews(b, id, user).0.news, id) == FindPublished(b.news, id)
  {
    match FindPublished(b.news, id)
    case None =>
    case Some(j) =>
      var news' := ViewNews(b, id, user).0.news;
      assert forall i :: 0 <= i < |news'| ==> news'[i].id == b.news[i].id && news'[i].isPublished == b.news[i].isPublished;
      FindPublishedSameKeys(b.news, news', id);
  }

  /** The lookup only looks at ids and flags. */
  lemma {:induction false} FindPublishedSameKeys(a: seq<News>, c: seq<News>, id: nat)
    requires |a| == |c|
    requires forall i :: 0 <= i < |a| ==> a[i].id == c[i].id && a[i].isPublished == c[i].isPublished
    ensures FindPublished(a, id) == FindPublished(c, id)
  {
    if a != [] {
      FindPublishedSameKeys(a[1..], c[1..], id);
    }
  }

  /**
   Repeated views by one user: one marker for that (news, user) pair however
   many calls, while the counter rises by exactly one per call.
   */
  lemma {:induction false} RepeatedViews(b: Board, id: nat, user: UserId, k: nat)
    requires FindPublished(b.news, id).Some?
    decreases k
    ensures var j := FindPublished(b.news, id).value;
      var b' := ViewTimes(b, id, user, k);
      && |b'.news| == |b.news|
      && FindPublished(b'.news, id) == Some(j)
      && b'.news[j].viewsCount == b.news[j].viewsCount + k
      && (forall i :: 0 <= i < |b.news| && i != j ==> b'.news[i] == b.news[i])
      && b'.views == b.views + (if k == 0 then {} else {(id, user)})
  {
    if k > 0 {
      var b1 := ViewNews(b, id, user).0;
      ViewNewsSpec(b, id, user);
      RepeatedViews(b1, id, user, k - 1);
    }
  }

  // ---------------------------------------------------------------------
  // create_news

  /** The request body fields `create_news` reads; `None` is an absent key. */
  datatype NewsForm = NewsForm(
    title: Option<string>,
    summary: Option<string>,
    content: Option<string>,
    category: Option<nat>,
    isPublished: Option<string>,
    isFeatured: Option<string>)

  /** The values a successful `create_news` stores. */
  datatype NewsDraft = NewsDraft(
    title: string, summary: string, content: string, category: Option<nat>,
    isPublished: bool, isFeatured: bool)

  /** `request.data.get(field, default).lower() in ['true', '1', 'yes']`. */
  function ParseFlag(v: Option<string>, default: string): bool {
    var s := Lower(v.GetOr(default));
    s == "true" || s == "1" || s == "yes"
  }

  lemma {:induction false} LowerIdempotent(s: string)
    ensures Lower(Lower(s)) == Lower(s)
  {
    var l := Lower(s);
    forall k | 0 <= k < |s| ensures Lower(l)[k] == l[k] {
      assert LowerChar(LowerChar(s[k])) == LowerChar(s[k]);
    }
  }

  /** A flag ignores the case of its value. */
  lemma FlagIgnoresCase(v: string, default: string)
    ensures ParseFlag(Some(v), default) == ParseFlag(Some(Lower(v)), default)
  {
    LowerIdempotent(v);
  }

  /** An absent `is_published` means published; an absent `is_featured` means not featured. */
  lemma FlagDefaults()
    ensures ParseFlag(None, "true")
    ensures !ParseFlag(None, "false")
  {
    assert Lower("true") == "true";
    assert Lower("false") == "false";
  }

  /**
   A given value sets a flag exactly when it is "1", or "true" or "yes" in
   any mix of upper and lower case; the default is then not consulted.
   */
  lemma {:induction false} FlagWords(v: string, default: string)
    ensures ParseFlag(Some(v), default) <==> v == "1" || Lower(v) == "true" || Lower(v) == "yes"
  {
    if Lower(v) == "1" {
      assert |v| == 1 && LowerChar(v[0]) == '1';
      assert v == [v[0]];
    }
    if v == "1" {
      assert Lower(v) == "1";
    }
  }

  /** The stripped required values, in checking order. */
  function RequiredValues(f: NewsForm): seq<string> {
    [Strip(f.title.GetOr("")), Strip(f.summary.GetOr("")), Strip(f.content.GetOr(""))]
  }

  /** All three required values non-blank implies all three keys were sent. */
  lemma RequiredPresent(f: NewsForm)
    requires FirstEmpty(RequiredValues(f)).None?
    ensures f.title.Some? && f.summary.Some? && f.content.Some?
    ensures RequiredValues(f)[0] != [] && RequiredValues(f)[1] != [] && RequiredValues(f)[2] != []
  {
    var e: string := [];
    assert Strip(e) == [];
    assert RequiredValues(f)[0] != [] && RequiredValues(f)[1] != [] && RequiredValues(f)[2] != [];
  }

  /** `create_news` up to the insert: role, required fields, category, values to store. */
  function CreateCheck(user: User, f: NewsForm, categories: set<nat>): (r: Result<NewsDraft>)
    ensures user.rol != Admin ==> r == Err(Forbidden(AdminsCreateOnly))
    ensures user.rol == Admin && FirstEmpty(RequiredValues(f)).Some? ==>
      r == Err(BadRequest(RequiredMessage(RequiredFields[FirstEmpty(RequiredValues(f)).value])))
    ensures user.rol == Admin && FirstEmpty(RequiredValues(f)).None? && Given(f.category) && f.category.value !in categories ==>
      r == Err(BadRequest(CategoryNotFound))
    ensures r.Ok? <==> (user.rol == Admin && FirstEmpty(RequiredValues(f)).None? && (!Given(f.category) || f.category.value in categories))
    ensures r.Ok? ==> (
      [r.value.title, r.value.summary, r.value.content] == RequiredValues(f)
      && r.value.title != [] && r.value.summary != [] && r.value.content != []
      && r.value.category == (if Given(f.category) then f.category else None)
      && (r.value.category.Some? ==> r.value.category.value in categories)
      && r.value.isPublished == ParseFlag(f.isPublished, "true")
      && r.value.isFeatured == ParseFlag(f.isFeatured, "false"))
  {
    if user.rol != Admin then Err(Forbidden(AdminsCreateOnly))
    else
      var values := RequiredValues(f);
      match FirstEmpty(values)
      case Some(k) => Err(BadRequest(RequiredMessage(RequiredFields[k])))
      case None =>
        RequiredPresent(f);
        if Given(f.category) && f.category.value !in categories then Err(BadRequest(CategoryNotFound))
        else
          Ok(NewsDraft(values[0], values[1], values[2], if Given(f.category) then f.category else None,
                       ParseFlag(f.isPublished, "true"), ParseFlag(f.isFeatured, "false")))
  }

  /** A field of spaces is as missing as an absent one. */
  lemma BlankTitleRejected(user: User, f: NewsForm, categories: set<nat>)
    requires user.rol == Admin && f.title.Some? && AllSpace(f.title.value)
    ensures CreateCheck(user, f, categories) == Err(BadRequest(RequiredMessage("title")))
  {
    StripEmptyIffAllSpace(f.title.value);
    assert RequiredValues(f)[0] == [];
  }

  /**
   The stored title, summary and content are the sent values with the
   surrounding whitespace removed, so none starts or ends with whitespace.
   */
  lemma StoredTextTrimmed(user: User, f: NewsForm, categories: set<nat>)
    requires CreateCheck(user, f, categories).Ok?
    ensures f.title.Some? && f.summary.Some? && f.content.Some?
    ensures var d := CreateCheck(user, f, categories).value;
      && d.title == Strip(f.title.value) && d.summary == Strip(f.summary.value) && d.content == Strip(f.content.value)
      && !IsSpace(d.title[0]) && !IsSpace(d.title[|d.title| - 1])
      && !IsSpace(d.summary[0]) && !IsSpace(d.summary[|d.summary| - 1])
      && !IsSpace(d.content[0]) && !IsSpace(d.content[|d.content| - 1])
  {
    var d := CreateCheck(user, f, categories).value;
    RequiredPresent(f);
    assert [d.title, d.summary, d.content] == RequiredValues(f);
    assert d.title == Strip(f.title.value) && d.summary == Strip(f.summary.value) && d.content == Strip(f.content.value);
    StripNoEdgeSpace(f.title.value);
    StripNoEdgeSpace(f.summary.value);
    StripNoEdgeSpace(f.content.value);
  }

  /** The row `News.objects.create(...)` inserts for a draft. */
  function NewRow(d: NewsDraft, id: nat, author: UserId, now: Time): (n: News)
    ensures n.id == id && n.author == author && n.viewsCount == 0 && n.image.None?
    ensures n.publicationDate == now && n.createdAt == now
    ensures n.title == d.title && n.summary == d.summary && n.content == d.content && n.category == d.category
    ensures n.isPublished == d.isPublished && n.isFeatured == d.isFeatured
  {
    News(id, d.title, d.summary, d.content, None, d.category, author, now,
         d.isPublished, d.isFeatured, 0, now)
  }

  /** Ids of the rows are distinct and below the next id the table hands out. */
  ghost predicate RowsValid(news: seq<News>, nextId: nat) {
    (forall i :: 0 <= i < |news| ==> news[i].id < nextId)
    && (forall i, j :: 0 <= i < j < |news| ==> news[i].id != news[j].id)
  }

  /** Appending a row under the next id keeps the ids distinct and bounded. */
  lemma AppendKeepsRowsValid(news: seq<News>, nextId: nat, row: News)
    requires RowsValid(news, nextId) && row.id == nextId
    ensures RowsValid(news + [row], nextId + 1)
    ensures forall i :: 0 <= i < |news| ==> news[i].id != row.id
  {
  }

  /** `create_news` on values: the table and next id after the call, and the answer. */
  function CreateOutcome(news: seq<News>, nextId: nat, categories: set<nat>, user: User, f: NewsForm, now: Time)
    : (seq<News>, nat, Result<News>)
  {
    match CreateCheck(user, f, categories)
    case Err(failure) => (news, nextId, Err(failure))
    case Ok(d) =>
      var row := NewRow(d, nextId, user.id, now);
      (news + [row], nextId + 1, Ok(row))
  }

  /**
   A refused request leaves the table alone; an accepted one appends exactly
   the new row, under an id no earlier row has, authored by the caller.
   */
  lemma CreateOutcomeSpec(news: seq<News>, nextId: nat, categories: set<nat>, user: User, f: NewsForm, now: Time)
    requires RowsValid(news, nextId)
    ensures var (news', nextId', r) := CreateOutcome(news, nextId, categories, user, f, now);
      && RowsValid(news', nextId')
      && (r.Err? <==> CreateCheck(user, f, categories).Err?)
      && (r.Err? ==> news' == news && nextId' == nextId && r.failure == CreateCheck(user, f, categories).failure)
      && (r.Ok? ==> (
            news' == news + [r.value] && nextId' == nextId + 1
            && r.value.author == user.id && r.value.viewsCount == 0
            && (forall i :: 0 <= i < |news| ==> news[i].id != r.value.id)))
  {
    match CreateCheck(user, f, categories)
    case Err(_) =>
    case Ok(d) =>
      AppendKeepsRowsValid(news, nextId, NewRow(d, nextId, user.id, now));
  }

  /**
   The news table with its view markers and category ids, updated in place by
   `news_detail` and `create_news`.
   */
  class NewsBoard {
    var news: seq<News>
    var views: set<(nat, UserId)>
    var categories: set<nat>
    var nextId: nat

    ghost predicate Valid()
      reads this
    {
      RowsValid(news, nextId)
    }

    constructor (categories: set<nat>)
      ensures Valid()
      ensures news == [] && views == {} && this.categories == categories && nextId == 1
    {
      news := [];
      views := {};
      this.categories := categories;
      nextId := 1;
    }

    /** `news_detail`, with the 404 it is meant to answer. */
    method Detail(user: UserId, id: nat) returns (r: Result<News>)
      requires Valid()
      modifies this`news, this`views
      ensures Valid()
      ensures (Board(news, views), r) == ViewNews(Board(old(news), old(views)), id, user)
    {
      var found := DetailLookup(news, id);
      match found {
        case Err(failure) =>
          r := Err(failure);
        case Ok(j) =>
          var row := Counted(news[j]);
          news := news[j := row];
          views := views + {(id, user)};
          r := Ok(row);
      }
    }

    /** `create_news`: on success the new row is appended under a fresh id. */
    method CreateNews(user: User, f: NewsForm, now: Time) returns (r: Result<News>)
      requires Valid()
      modifies this`news, this`nextId
      ensures Valid()
      ensures (news, nextId, r) == CreateOutcome(old(news), old(nextId), categories, user, f, now)
    {
      var outcome := CreateOutcome(news, nextId, categories, user, f, now);
      CreateOutcomeSpec(news, nextId, categories, user, f, now);
      news, nextId, r := outcome.0, outcome.1, outcome.2;
    }
  }
}
