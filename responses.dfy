/** The HTTP answers of the services, as values: which template is rendered
    with which arguments, or which endpoint is redirected to. Flask's routing,
    templates and `url_for` are not modelled beyond these names. */
module Responses {
  import opened Common
  import Comments
  import Home

  const AddPageEndpoint: string := "add_page"
  const ShowPageEndpoint: string := "show_page"
  const AdminPageEndpoint: string := "admin_page"

  datatype Response =
    /** `redirect(url_for(endpoint, page=page, lang=lang))`; `page` is absent
        for endpoints that take none. */
    | Redirect(endpoint: string, page: Option<string>, lang: string)
    /** `render_template('add_page.html', ...)`. */
    | AddPageForm(locale: string, siteTitle: Option<string>, pages: seq<string>,
                  comments: seq<Comments.CommentRecord>, footer: Option<Home.Footer>)
    /** `render_template('page.html', ...)`. */
    | PageView(pageName: string, pageLocale: string, blocks: seq<string>, title: string,
               pageComments: seq<Comments.CommentRecord>, pageFooter: Option<Home.Footer>, menu: seq<string>)
    /** An exception escaped the handler; Flask answers with status 500. */
    | ServerError
}
