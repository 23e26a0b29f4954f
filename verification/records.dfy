/** The already-decoded values the reply listing hands back. */
module Records {

  /** One entry of `data.replies`: author name, author id, avatar URL, like
      count and message text. Only the author name is used downstream. */
  datatype Reply = Reply(uname: string, mid: int, avatar: string, like: nat, message: string)

  /** One response of the reply listing: its status `code` and its
      `data.replies` list (a JSON null list is an empty one). */
  datatype Page = Page(code: int, replies: seq<Reply>)
}
