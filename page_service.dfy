/** `PageService`: the decisions behind the add-page form and the page view.
    The service reads the site title from the params table, adds content
    blocks to the pages table and lists the comments; Flask's request object
    is a `Request` value and the rendered answer a `Response` value. */
module PageServices {
  import opened Common
  import opened Text
  import opened Responses
  import Pages
  import Home
  import Comments

  /** The params key of the site title. */
  const TitleKey: string := "title"

  /** The form fields of the add-page form. */
  const TitleField: string := "title"
  const PageField: string := "page"
  const PositionField: string := "position"
  const ContentField: string := "content"
  const PageOrderField: string := "page_order"

  /** The locale every request is served in. */
  const Locale: string := "en"

  /** `detect_locale`: returns `'en'` before it ever looks at the `lang`
      argument or the `Accept-Language` header. */
  function DetectLocale(): (locale: string)
    ensures locale == Locale
  {
    Locale
  }

  /** A request to `add_page`: a GET, or a POST with its form fields. */
  datatype Request = GetRequest | PostRequest(form: map<string, string>)

  /** `(request.form.get(key) or '')`: empty exactly when the field is
      missing or sent empty, and otherwise the text that was sent. */
  function Field(form: map<string, string>, key: string): (r: string)
    ensures r == [] <==> key !in form || form[key] == []
    ensures r != [] ==> r == form[key]
  {
    if key in form then form[key] else ""
  }

  /** A content block the form asks to add, its numbers already read. */
  datatype BlockForm = BlockForm(page: string, position: nat, pageOrder: nat, content: string)

  /** The guard as written: `page and position.isdigit() and
      page_order.isdigit() and content` over the stripped fields. */
  predicate BlockGuardAsWritten(form: map<string, string>): (b: bool)
    ensures b ==> PageField in form && PositionField in form && PageOrderField in form && ContentField in form
  {
    && Strip(Field(form, PageField)) != []
    && IsDigits(Strip(Field(form, PositionField)))
    && IsDigits(Strip(Field(form, PageOrderField)))
    && Strip(Field(form, ContentField)) != []
  }

  /** The guard as intended: the same, with `isdecimal()` in place of
      `isdigit()`, so that `int()` can read both numbers. */
  predicate BlockGuard(form: map<string, string>): (b: bool)
    ensures b ==> BlockGuardAsWritten(form)
  {
    && Strip(Field(form, PageField)) != []
    && IsDecimal(Strip(Field(form, PositionField)))
    && IsDecimal(Strip(Field(form, PageOrderField)))
    && Strip(Field(form, ContentField)) != []
  }

  /** A form that the guard as written lets through and on which
      `int(position)` then raises `ValueError`: a superscript two is a digit
      to `isdigit()` but not to `int()`. */
  lemma AsWrittenGuardAdmitsSuperscript()
    ensures var form := map[PageField := "home", PositionField := "\U{B2}", PageOrderField := "1", ContentField := "hello"];
            && BlockGuardAsWritten(form)
            && ParseInt(Strip(Field(form, PositionField))).None?
  {
    var form := map[PageField := "home", PositionField := "\U{B2}", PageOrderField := "1", ContentField := "hello"];
    assert Field(form, PageField) == "home" && Field(form, PositionField) == "\U{B2}";
    assert Field(form, PageOrderField) == "1" && Field(form, ContentField) == "hello";
    assert Strip("home") == "home" by { assert !IsSpace('h') && !IsSpace('e'); }
    assert Strip("hello") == "hello" by { assert !IsSpace('h') && !IsSpace('o'); }
    assert Strip("\U{B2}") == "\U{B2}" by { assert !IsSpace('\U{B2}'); }
    assert Strip("1") == "1" by { assert !IsSpace('1'); }
    assert IsDigits("\U{B2}") && IsDigits("1");
  }

  /** The intended guard admits exactly the forms the guard as written admits
      and on which both `int()` calls succeed. */
  lemma GuardCorrection(form: map<string, string>)
    ensures BlockGuard(form) <==>
              && BlockGuardAsWritten(form)
              && ParseInt(Strip(Field(form, PositionField))).Some?
              && ParseInt(Strip(Field(form, PageOrderField))).Some?
  {
    var position := Strip(Field(form, PositionField));
    var pageOrder := Strip(Field(form, PageOrderField));
    if IsDecimal(position) { DecimalParses(position); }
    if IsDecimal(pageOrder) { DecimalParses(pageOrder); }
    if ParseInt(position).Some? { ParseIntNeedsDecimal(position); }
    if ParseInt(pageOrder).Some? { ParseIntNeedsDecimal(pageOrder); }
  }

  /** The block the POST asks for: the stripped page and content and the two
      numbers `int()` reads, or `None` when the corrected guard fails. */
  function ParseBlockForm(form: map<string, string>): (r: Option<BlockForm>)
    ensures r.Some? <==> BlockGuard(form)
    ensures r.Some? ==>
              && r.value.page == Strip(Field(form, PageField))
              && r.value.content == Strip(Field(form, ContentField))
              && Some(r.value.position) == ParseInt(Strip(Field(form, PositionField)))
              && Some(r.value.pageOrder) == ParseInt(Strip(Field(form, PageOrderField)))
  {
    var page := Strip(Field(form, PageField));
    var position := Strip(Field(form, PositionField));
    var pageOrder := Strip(Field(form, PageOrderField));
    var content := Strip(Field(form, ContentField));
    if page != [] && IsDecimal(position) && IsDecimal(pageOrder) && content != [] then
      DecimalParses(position);
      DecimalParses(pageOrder);
      Some(BlockForm(page, ParseInt(position).value, ParseInt(pageOrder).value, content))
    else None
  }

  /** What `add_page_response` does next: show the form with this title, add
      this block, or let the `ValueError` of `int()` escape. */
  datatype Step = ShowForm(formTitle: Option<string>) | AddBlock(block: BlockForm) | IntRaises

  /** The decision of `add_page_response`: the title to store first, if any,
      and the step after it. */
  datatype Plan = Plan(newTitle: Option<string>, step: Step)

  /** `add_page_response` as a decision on the stored title and the request,
      with the corrected guard. */
  function Decide(siteTitle: Option<string>, req: Request): (p: Plan)
    ensures p.newTitle.Some? ==> !Truthy(siteTitle)
  {
    match req
    case GetRequest => Plan(None, ShowForm(siteTitle))
    case PostRequest(form) =>
      var title := Strip(Field(form, TitleField));
      if !Truthy(siteTitle) && title == [] then Plan(None, ShowForm(None))
      else
        var newTitle := if Truthy(siteTitle) then None else Some(title);
        var current := if Truthy(siteTitle) then siteTitle else newTitle;
        match ParseBlockForm(form)
        case Some(block) => Plan(newTitle, AddBlock(block))
        case None => Plan(newTitle, ShowForm(current))
  }

  /** A GET only shows the form, with the stored title. A POST without a
      title stores the stripped title field, or shows the form again without a
      title when that field is blank. A POST with a title, stored before or
      just now, adds the block the form describes, or shows the form again with
      that title when the form is incomplete. An existing title is never
      replaced. */
  lemma DecideSpec(siteTitle: Option<string>, req: Request)
    ensures req.GetRequest? ==> Decide(siteTitle, req) == Plan(None, ShowForm(siteTitle))
    ensures Decide(siteTitle, req).newTitle.Some? <==>
              req.PostRequest? && !Truthy(siteTitle) && Strip(Field(req.form, TitleField)) != []
    ensures Decide(siteTitle, req).newTitle.Some? ==> Decide(siteTitle, req).newTitle.value == Strip(Field(req.form, TitleField))
    ensures req.PostRequest? && !Truthy(siteTitle) && Strip(Field(req.form, TitleField)) == [] ==>
              Decide(siteTitle, req) == Plan(None, ShowForm(None))
    ensures Decide(siteTitle, req).step.AddBlock? <==>
              req.PostRequest? && (Truthy(siteTitle) || Decide(siteTitle, req).newTitle.Some?) && BlockGuard(req.form)
    ensures Decide(siteTitle, req).step.AddBlock? ==> Some(Decide(siteTitle, req).step.block) == ParseBlockForm(req.form)
    ensures req.PostRequest? && (Truthy(siteTitle) || Decide(siteTitle, req).newTitle.Some?) && !BlockGuard(req.form) ==>
              Decide(siteTitle, req).step == ShowForm(if Truthy(siteTitle) then siteTitle else Decide(siteTitle, req).newTitle)
    ensures !Decide(siteTitle, req).step.IntRaises?
  {
  }

  /** `add_page_response` as written: the guard uses `isdigit()`, and when it
      lets through a number `int()` cannot read, the `ValueError` escapes,
      after a title the same request stored has been committed. */
  function DecideAsWritten(siteTitle: Option<string>, req: Request): (p: Plan)
    ensures p.newTitle == Decide(siteTitle, req).newTitle
    ensures p.step.IntRaises? ==> req.PostRequest? && BlockGuardAsWritten(req.form) && !BlockGuard(req.form)
  {
    match req
    case GetRequest => Plan(None, ShowForm(siteTitle))
    case PostRequest(form) =>
      var title := Strip(Field(form, TitleField));
      if !Truthy(siteTitle) && title == [] then Plan(None, ShowForm(None))
      else
        var newTitle := if Truthy(siteTitle) then None else Some(title);
        var current := if Truthy(siteTitle) then siteTitle else newTitle;
        if BlockGuardAsWritten(form) then
          var position := ParseInt(Strip(Field(form, PositionField)));
          var pageOrder := ParseInt(Strip(Field(form, PageOrderField)));
          if position.Some? && pageOrder.Some? then
            Plan(newTitle, AddBlock(BlockForm(Strip(Field(form, PageField)), position.value, pageOrder.value,
                                              Strip(Field(form, ContentField)))))
          else
            GuardCorrection(form);
            Plan(newTitle, IntRaises)
        else Plan(newTitle, ShowForm(current))
  }

  /** The handler as written and the corrected decision store the same title
      and agree on every request except those the guard as written admits
      while `int()` refuses a number: there the handler as written raises
      and the corrected one shows the form again. */
  lemma DecideCorrection(siteTitle: Option<string>, req: Request)
    ensures DecideAsWritten(siteTitle, req).newTitle == Decide(siteTitle, req).newTitle
    ensures DecideAsWritten(siteTitle, req).step.IntRaises? <==>
              && req.PostRequest? && (Truthy(siteTitle) || Decide(siteTitle, req).newTitle.Some?)
              && BlockGuardAsWritten(req.form) && !BlockGuard(req.form)
    ensures !DecideAsWritten(siteTitle, req).step.IntRaises? ==> DecideAsWritten(siteTitle, req) == Decide(siteTitle, req)
    ensures DecideAsWritten(siteTitle, req).step.IntRaises? ==> Decide(siteTitle, req).step.ShowForm?
  {
    if req.PostRequest? {
      GuardCorrection(req.form);
    }
  }

  /** A POST that stores the title `Site` and asks for a block at position
      `²`: the handler as written commits the title and then raises, and the
      corrected one commits the title and shows the form again. */
  lemma AsWrittenRequestFails()
    ensures var form := map[TitleField := "Site", PageField := "home", PositionField := "\U{B2}",
                            PageOrderField := "1", ContentField := "hello"];
            && DecideAsWritten(None, PostRequest(form)) == Plan(Some("Site"), IntRaises)
            && Decide(None, PostRequest(form)) == Plan(Some("Site"), ShowForm(Some("Site")))
  {
    var form := map[TitleField := "Site", PageField := "home", PositionField := "\U{B2}",
                    PageOrderField := "1", ContentField := "hello"];
    var sup := map[PageField := "home", PositionField := "\U{B2}", PageOrderField := "1", ContentField := "hello"];
    AsWrittenGuardAdmitsSuperscript();
    assert Field(form, TitleField) == "Site";
    assert Strip("Site") == "Site" by { assert !IsSpace('S') && !IsSpace('e'); }
    assert forall k :: k != TitleField ==> Field(form, k) == Field(sup, k);
    assert BlockGuardAsWritten(form) == BlockGuardAsWritten(sup);
    DecideCorrection(None, PostRequest(form));
  }

  /** The service over three tables: the pages and params tables, and the
      comments table, which the source keeps in a database file of its own. */
  class PageService {
    const pageModel: Pages.PageModel
    const homeModel: Home.HomeModel
    const commentModel: Comments.CommentModel

    /** Every table keeps its invariant, and the params table exists: the
        application runs `init_db` before it serves a request. */
    ghost predicate Valid()
      reads this, pageModel, homeModel, commentModel
    {
      && pageModel.Valid()
      && homeModel.Valid() && homeModel.tableExists
      && commentModel.Valid()
    }

    constructor (pageModel: Pages.PageModel, homeModel: Home.HomeModel, commentModel: Comments.CommentModel)
      requires pageModel.Valid() && homeModel.Valid() && homeModel.tableExists && commentModel.Valid()
      ensures Valid()
      ensures this.pageModel == pageModel && this.homeModel == homeModel && this.commentModel == commentModel
    {
      this.pageModel := pageModel;
      this.homeModel := homeModel;
      this.commentModel := commentModel;
    }

    /** `render_page(page)`: without a site title, a redirect to the add-page
        form; otherwise the page view with the page's blocks in position
        order, the title, all comments, the footer and the page menu. */
    method RenderPage(page: string) returns (resp: Response)
      requires Valid()
      ensures var title := Home.Param(homeModel.rows, TitleKey);
              && (!Truthy(title) <==> resp == Redirect(AddPageEndpoint, None, Locale))
              && (Truthy(title) ==>
                    resp == PageView(page, Locale, Pages.Get(pageModel.rows, page, Locale), title.value,
                                     Comments.GetAll(commentModel.rows), Some(Home.FooterData(homeModel.rows)),
                                     Pages.PagesList(pageModel.rows)))
    {
      var locale := DetectLocale();
      var siteTitle := Home.Param(homeModel.rows, TitleKey);
      if !Truthy(siteTitle) {
        return Redirect(AddPageEndpoint, None, locale);
      }
      var blocks := Pages.Get(pageModel.rows, page, locale);
      var comments := Comments.GetAll(commentModel.rows);
      var footer := homeModel.GetFooterData();
      var pages := Pages.PagesList(pageModel.rows);
      resp := PageView(page, locale, blocks, siteTitle.value, comments, footer, pages);
    }

    /** The end of a POST whose form passed the guard: `page_model.add` and
        the redirect to the new page, or the escaping `IntegrityError` when
        the slot is taken or `OverflowError` when a number does not fit. */
    method SaveBlock(block: BlockForm, locale: string) returns (resp: Response)
      requires pageModel.Valid()
      modifies pageModel
      ensures pageModel.Valid()
      ensures Pages.AddFails(old(pageModel.rows), block.page, locale, block.position, block.pageOrder) ==>
                && resp == ServerError
                && pageModel.rows == old(pageModel.rows) && pageModel.nextId == old(pageModel.nextId)
      ensures !Pages.AddFails(old(pageModel.rows), block.page, locale, block.position, block.pageOrder) ==>
                && resp == Redirect(ShowPageEndpoint, Some(block.page), locale)
                && pageModel.rows == old(pageModel.rows) +
                     [Pages.PageRow(old(pageModel.nextId), block.page, Pages.StoredOrder(old(pageModel.rows), block.page, block.pageOrder),
                                    locale, block.content, block.position)]
                && pageModel.nextId == old(pageModel.nextId) + 1
    {
      var added := pageModel.Add(block.page, locale, block.position, block.pageOrder, block.content);
      if added.Err? {
        return ServerError;
      }
      resp := Redirect(ShowPageEndpoint, Some(block.page), locale);
    }

    /** The title step of a POST without a site title: the stripped `title`
        field is stored under `title` when it is not blank. */
    method StoreTitle(form: map<string, string>) returns (title: Option<string>)
      requires homeModel.Valid() && homeModel.tableExists
      modifies homeModel
      ensures homeModel.Valid() && homeModel.tableExists
      ensures var t := Strip(Field(form, TitleField));
              && title == (if t != [] then Some(t) else None)
              && homeModel.rows == (if t != [] then Home.Upsert(old(homeModel.rows), old(homeModel.nextId), TitleKey, t)
                                    else old(homeModel.rows))
              && homeModel.nextId == (if t != [] then Home.NextIdAfterUpsert(old(homeModel.rows), old(homeModel.nextId), TitleKey)
                                      else old(homeModel.nextId))
    {
      var newTitle := Strip(Field(form, TitleField));
      if newTitle != [] {
        homeModel.SetParam(TitleKey, newTitle);
        title := Some(newTitle);
      } else {
        title := None;
      }
    }

    /** The POST branch of `add_page_response()`, given the title, menu,
        comments and footer the handler read before it. A block whose slot is
        taken, or whose numbers do not fit, makes the INSERT raise, after a title stored by the same request
        has already been committed. */
    method PostResponse(form: map<string, string>, siteTitle: Option<string>, pages: seq<string>,
                        comments: seq<Comments.CommentRecord>, footer: Option<Home.Footer>) returns (resp: Response)
      requires Valid()
      requires siteTitle == Home.Param(homeModel.rows, TitleKey)
      modifies pageModel, homeModel
      ensures Valid()
      ensures var plan := Decide(siteTitle, PostRequest(form));
              && homeModel.rows == (if plan.newTitle.Some?
                                    then Home.Upsert(old(homeModel.rows), old(homeModel.nextId), TitleKey, plan.newTitle.value)
                                    else old(homeModel.rows))
              && homeModel.nextId == (if plan.newTitle.Some?
                                      then Home.NextIdAfterUpsert(old(homeModel.rows), old(homeModel.nextId), TitleKey)
                                      else old(homeModel.nextId))
      ensures var plan := Decide(siteTitle, PostRequest(form));
              plan.step.ShowForm? ==>
                && resp == AddPageForm(Locale, plan.step.formTitle, pages, comments, footer)
                && pageModel.rows == old(pageModel.rows) && pageModel.nextId == old(pageModel.nextId)
      ensures var plan := Decide(siteTitle, PostRequest(form));
              plan.step.AddBlock? ==>
                var b := plan.step.block;
                && (Pages.AddFails(old(pageModel.rows), b.page, Locale, b.position, b.pageOrder) ==>
                      && resp == ServerError
                      && pageModel.rows == old(pageModel.rows) && pageModel.nextId == old(pageModel.nextId))
                && (!Pages.AddFails(old(pageModel.rows), b.page, Locale, b.position, b.pageOrder) ==>
                      && resp == Redirect(ShowPageEndpoint, Some(b.page), Locale)
                      && pageModel.rows == old(pageModel.rows) +
                           [Pages.PageRow(old(pageModel.nextId), b.page, Pages.StoredOrder(old(pageModel.rows), b.page, b.pageOrder),
                                          Locale, b.content, b.position)]
                      && pageModel.nextId == old(pageModel.nextId) + 1)
    {
      ghost var plan := Decide(siteTitle, PostRequest(form));
      var locale := DetectLocale();
      var title := siteTitle;
      if !Truthy(title) {
        title := StoreTitle(form);
        if title.None? {
          return AddPageForm(locale, None, pages, comments, footer);
        }
      }
      var block := ParseBlockForm(form);
      if block.Some? {
        assert plan.step == AddBlock(block.value);
        resp := SaveBlock(block.value, locale);
        return;
      }
      assert plan.step == ShowForm(title);
      resp := AddPageForm(locale, title, pages, comments, footer);
    }

    /** `add_page_response()`: carries out `Decide` on the stored title and
        the request. The menu, comments and footer are read before anything
        is written, and a GET writes nothing. */
    method AddPageResponse(req: Request) returns (resp: Response)
      requires Valid()
      modifies pageModel, homeModel
      ensures Valid()
      ensures var plan := Decide(Home.Param(old(homeModel.rows), TitleKey), req);
              && homeModel.rows == (if plan.newTitle.Some?
                                    then Home.Upsert(old(homeModel.rows), old(homeModel.nextId), TitleKey, plan.newTitle.value)
                                    else old(homeModel.rows))
              && homeModel.nextId == (if plan.newTitle.Some?
                                      then Home.NextIdAfterUpsert(old(homeModel.rows), old(homeModel.nextId), TitleKey)
                                      else old(homeModel.nextId))
      ensures var plan := Decide(Home.Param(old(homeModel.rows), TitleKey), req);
              plan.step.ShowForm? ==>
                && resp == AddPageForm(Locale, plan.step.formTitle, Pages.PagesList(old(pageModel.rows)),
                                       Comments.GetAll(commentModel.rows), Some(Home.FooterData(old(homeModel.rows))))
                && pageModel.rows == old(pageModel.rows) && pageModel.nextId == old(pageModel.nextId)
      ensures var plan := Decide(Home.Param(old(homeModel.rows), TitleKey), req);
              plan.step.AddBlock? ==>
                var b := plan.step.block;
                && (Pages.AddFails(old(pageModel.rows), b.page, Locale, b.position, b.pageOrder) ==>
                      && resp == ServerError
                      && pageModel.rows == old(pageModel.rows) && pageModel.nextId == old(pageModel.nextId))
                && (!Pages.AddFails(old(pageModel.rows), b.page, Locale, b.position, b.pageOrder) ==>
                      && resp == Redirect(ShowPageEndpoint, Some(b.page), Locale)
                      && pageModel.rows == old(pageModel.rows) +
                           [Pages.PageRow(old(pageModel.nextId), b.page, Pages.StoredOrder(old(pageModel.rows), b.page, b.pageOrder),
                                          Locale, b.content, b.position)]
                      && pageModel.nextId == old(pageModel.nextId) + 1)
    {
      var locale := DetectLocale();
      var siteTitle := Home.Param(homeModel.rows, TitleKey);
      var pages := Pages.PagesList(pageModel.rows);
      var comments := Comments.GetAll(commentModel.rows);
      var footer := homeModel.GetFooterData();
      match req
      case GetRequest =>
        assert Decide(siteTitle, req) == Plan(None, ShowForm(siteTitle));
        resp := AddPageForm(locale, siteTitle, pages, comments, footer);
      case PostRequest(form) =>
        resp := PostResponse(form, siteTitle, pages, comments, footer);
    }
  }
}
