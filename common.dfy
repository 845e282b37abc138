/** Failure-carrying values shared by every module of the model. */
module Common {

  datatype Option<T> = None | Some(value: T)

  /** The WP_Error codes the plugin creates itself, and `Remote` for an error object that a
      collaborator (HTTP transport, feed reader, download, sideload, post insertion) returned
      and that the plugin passes on unchanged. */
  datatype Error =
    | EmptyBody       // 'empty-body'
    | EmptyList       // 'empty-list'
    | NotFound        // 'not-found'
    | EmptyArticle    // 'empty-article'
    | ShortList       // 'short-list'
    | EmptyFile       // 'empty-file'
    | Remote(code: string)

  datatype Result<T> = Ok(value: T) | Err(error: Error)

  /** What `set_image` hands to `set_post_thumbnail`: nothing (PHP null), an error, or a media ID. */
  datatype Attachment = Nothing | Failed(error: Error) | Media(id: int)
}
