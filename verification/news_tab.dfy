/**
 * The news tab of the admin area: the article form, whose title field also
 * fills the slug field, and the record it writes (the form as it stands).
 */
module NewsAdmin {
  import opened Wrappers
  import opened Backend
  import Slug

  /** A stored `news` row. */
  datatype News = News(
    title: string, summary: Option<string>, content: Option<string>,
    imageUrl: Option<string>, slug: string, author: Option<string>,
    isActive: bool, publishedAt: Option<string>)

  /** The form state (`formData`). */
  datatype NewsForm = NewsForm(
    title: string, summary: string, content: string, imageUrl: string,
    slug: string, author: string, isActive: bool)

  const EmptyForm := NewsForm("", "", "", "", "", "", true)

  /** `handleEdit`: null text becomes `""`; the stored slug is kept. */
  function FormOf(n: News): NewsForm
  {
    NewsForm(n.title, OrEmpty(n.summary), OrEmpty(n.content), OrEmpty(n.imageUrl),
             n.slug, OrEmpty(n.author), n.isActive)
  }

  /**
   * `update(formData)` over a stored article `n`: every form field as it
   * stands (an empty field is stored as `""`; the slug is not recomputed);
   * `published_at` is not part of the form and keeps its value.
   */
  function Written(f: NewsForm, n: News): (r: News)
    ensures r.slug == f.slug && r.title == f.title && r.publishedAt == n.publishedAt
    ensures r.summary.Some? && r.content.Some? && r.imageUrl.Some? && r.author.Some?
  {
    News(f.title, Some(f.summary), Some(f.content), Some(f.imageUrl), f.slug, Some(f.author),
         f.isActive, n.publishedAt)
  }

  function Patch(f: NewsForm): News -> News
  {
    (n: News) => Written(f, n)
  }

  /** The row `insert([formData])` creates; `published_at` takes the column default. */
  function Inserted(f: NewsForm, publishedDefault: Option<string>): News
  {
    Written(f, News("", None, None, None, "", None, false, publishedDefault))
  }

  /** Saving a form and editing the saved article gives back the form, slug included. */
  lemma EditAfterSave(f: NewsForm, n: News)
    ensures FormOf(Written(f, n)) == f
  {
  }

  class NewsTab {
    var form: NewsForm
    var editingId: Option<string>
    var open: bool
    var reloads: nat
    var toast: Option<Toast>

    constructor ()
      ensures form == EmptyForm && editingId == None && !open && reloads == 0 && toast == None
    {
      form := EmptyForm;
      editingId := None;
      open := false;
      reloads := 0;
      toast := None;
    }

    /** `resetForm`. */
    method ResetForm()
      modifies this
      ensures form == EmptyForm && editingId == None
      ensures open == old(open) && reloads == old(reloads) && toast == old(toast)
    {
      form := EmptyForm;
      editingId := None;
    }

    /** Typing in the title field: the title and its slug are set together. */
    method SetTitle(title: string)
      modifies this
      ensures form == old(form).(title := title, slug := Slug.GenerateSlugOneHyphen(title))
      ensures form.slug == Slug.GenerateSlug(title) && Slug.IsSlug(form.slug)
      ensures editingId == old(editingId) && open == old(open) && reloads == old(reloads) && toast == old(toast)
    {
      Slug.SlugVariantsAgree(title);
      Slug.GenerateSlugIsSlug(title);
      form := form.(title := title, slug := Slug.GenerateSlugOneHyphen(title));
    }

    /** Typing in the slug field: the text is kept exactly as typed. */
    method SetSlug(text: string)
      modifies this
      ensures form == old(form).(slug := text)
      ensures editingId == old(editingId) && open == old(open) && reloads == old(reloads) && toast == old(toast)
    {
      form := form.(slug := text);
    }

    /** `handleEdit`: the stored slug is shown unchanged. */
    method HandleEdit(item: Row<News>)
      modifies this
      ensures form == FormOf(item.cols) && form.slug == item.cols.slug
      ensures editingId == Some(item.id) && open
      ensures reloads == old(reloads) && toast == old(toast)
    {
      form := FormOf(item.cols);
      editingId := Some(item.id);
      open := true;
    }

    /** `handleSubmit`: update the edited article or insert a new one, with the form as it stands. */
    method HandleSubmit(news: Table<News>, reply: Reply, newId: string, publishedDefault: Option<string>)
      modifies this, news
      ensures old(editingId).Some? ==> news.requests == old(news.requests) + [Update(old(editingId).value)]
      ensures old(editingId).Some? && reply.Ok? ==> news.rows == Patched(old(news.rows), old(editingId).value, Patch(old(form)))
      ensures old(editingId).None? ==> news.requests == old(news.requests) + [Insert(1)]
      ensures old(editingId).None? && reply.Ok? ==> news.rows == old(news.rows) + [Row(newId, Inserted(old(form), publishedDefault))]
      ensures reply.Fail? ==> news.rows == old(news.rows)
      ensures reply.Ok? ==> form == EmptyForm && editingId == None && !open && reloads == old(reloads) + 1
      ensures reply.Ok? ==> toast == Some(Info(if old(editingId).Some? then "Notícia atualizada com sucesso!" else "Notícia criada com sucesso!"))
      ensures reply.Fail? ==> form == old(form) && editingId == old(editingId) && open == old(open) && reloads == old(reloads)
      ensures reply.Fail? ==> toast == Some(Error("Erro ao salvar notícia", reply.message))
    {
      if editingId.Some? {
        news.Change(editingId.value, Patch(form), reply);
      } else {
        news.Add([Inserted(form, publishedDefault)], [newId], reply);
        assert Zip([newId], [Inserted(old(form), publishedDefault)]) == [Row(newId, Inserted(old(form), publishedDefault))];
      }
      if reply.Ok? {
        toast := Some(Info(if editingId.Some? then "Notícia atualizada com sucesso!" else "Notícia criada com sucesso!"));
        open := false;
        ResetForm();
        reloads := reloads + 1;
      } else {
        toast := Some(Error("Erro ao salvar notícia", reply.message));
      }
    }
  }

  /**
   * The slug saved is whatever the slug field holds: after a title is typed
   * it is that title's slug, but text typed into the slug field afterwards is
   * stored without being normalised, so a stored slug need not have the
   * slug shape.
   */
  lemma SavedSlug(f: NewsForm, title: string, n: News)
    ensures Written(f.(title := title, slug := Slug.GenerateSlugOneHyphen(title)), n).slug == Slug.GenerateSlug(title)
    ensures !Slug.IsSlug(Written(f.(slug := "-"), n).slug)
  {
    Slug.SlugVariantsAgree(title);
  }
}
