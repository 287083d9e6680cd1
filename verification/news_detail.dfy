/**
 * The public article page: the active article whose slug is in the route,
 * and its body rendered as one paragraph per line.
 */
module NewsDetailPage {
  import opened Wrappers
  import opened Backend
  import Seqs
  import Text
  import NewsAdmin

  type NewsRow = Row<NewsAdmin.News>

  /** `.eq("slug", slug).eq("is_active", true)`. */
  function PublishedWithSlug(slug: string): NewsRow -> bool
  {
    (n: NewsRow) => n.cols.slug == slug && n.cols.isActive
  }

  class NewsDetail {
    var news: Option<NewsRow>
    var loading: bool

    constructor ()
      ensures news == None && loading
    {
      news := None;
      loading := true;
    }

    /**
     * The page's effect: without a route slug nothing happens; otherwise
     * `fetchNews` asks for the active article with that slug with
     * `.single()`, which fails unless exactly one row matches.  A failure
     * is only logged, so the article keeps its previous value (the
     * not-found view on a fresh page).  Loading ends either way.
     */
    method Open(slug: string, table: Table<NewsAdmin.News>, reply: Reply)
      modifies this, table
      ensures table.rows == old(table.rows)
      ensures slug == "" ==> news == old(news) && loading == old(loading) && table.requests == old(table.requests)
      ensures slug != "" ==> !loading && table.requests == old(table.requests) + [Select]
      ensures var found := Cardinality(Matching(table.rows, PublishedWithSlug(slug)));
        news == if slug != "" && reply.Ok? && found.OneRow? then Some(found.row) else old(news)
    {
      if slug != "" {
        var r := table.Query(PublishedWithSlug(slug), reply);
        if r.Success? {
          var found := Cardinality(r.value);
          if found.OneRow? {
            news := Some(found.row);
          }
        }
        loading := false;
      }
    }

    /** "Notícia não encontrada": loaded, and no article. */
    predicate NotFound()
      reads this
    {
      !loading && news.None?
    }
  }

  /** The article the page shows for a unique active match is that match. */
  lemma ShowsTheOnlyMatch(rows: seq<NewsRow>, slug: string, i: int)
    requires 0 <= i < |rows| && rows[i].cols.slug == slug && rows[i].cols.isActive
    requires forall j :: 0 <= j < |rows| && j != i ==> !(rows[j].cols.slug == slug && rows[j].cols.isActive)
    ensures Cardinality(Matching(rows, PublishedWithSlug(slug))) == OneRow(rows[i])
  {
    OnlyMatch(rows, PublishedWithSlug(slug), i);
  }

  /** With no active article of that slug, the page finds nothing. */
  lemma NoMatchNotFound(rows: seq<NewsRow>, slug: string)
    requires forall n :: n in rows ==> !(n.cols.slug == slug && n.cols.isActive)
    ensures Cardinality(Matching(rows, PublishedWithSlug(slug))).NoRow?
  {
    Seqs.FilterNone(rows, PublishedWithSlug(slug));
  }

  /**
   * The paragraphs of the body: `content.split("\n")` when there is content,
   * none otherwise.  Joining them with line breaks gives the content back,
   * there is one more paragraph than line breaks, and no paragraph holds a
   * line break.
   */
  function Paragraphs(content: Option<string>): (r: seq<string>)
    ensures !Filled(content) ==> r == []
    ensures Filled(content) ==>
      && Text.Join(r, "\n") == content.value
      && |r| == Text.Count(content.value, '\n') + 1
      && forall p :: p in r ==> '\n' !in p
  {
    if Filled(content) then
      Text.JoinSplit(content.value, "\n");
      Text.SplitCount(content.value, '\n');
      Text.SplitPiecesAvoidChar(content.value, '\n');
      Text.Split(content.value, "\n")
    else []
  }
}
