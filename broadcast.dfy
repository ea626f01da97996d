/** Handling of the submitted broadcast form (`handleModalSubmit`): the
    permission re-check, the blank-content check, and the choice of the
    posted title. */
module Broadcast {
  import opened JsText
  import opened GuiPermission

  const SendModalId: string := "sendMessageModal"
  const TitlePin: string := "📌 "
  const AdminDefaultTitle: string := "📢 THÔNG BÁO QUAN TRỌNG"
  const MemberDefaultTitle: string := "💬 TIN NHẮN MỚI"

  /** The submitted form: its custom id and the two text fields (an empty
      optional title arrives as ""). */
  datatype Submission = Submission(customId: string, content: string, title: string)

  /** The embed posted into the channel: title, description and whether it
      is styled as an administrator announcement (red colour, 📢 reaction)
      rather than a member message (blurple colour, 💬 reaction). */
  datatype Post = Post(title: string, description: string, fromAdmin: bool)

  datatype SubmitOutcome =
    | Ignored        // another form's submission
    | NoPermission   // "❌ Bạn không có quyền gửi tin nhắn!"
    | EmptyContent   // "❌ Tin nhắn không được để trống!"
    | Send(post: Post)

  /** `!s || s.trim() === ''`: the text has no non-whitespace character. */
  function IsBlank(s: string): (b: bool)
    ensures b <==> AllWhitespace(s)
  {
    Trim(s) == ""
  }

  /** The posted title: the caller's title behind a pin when it has any
      non-whitespace character, otherwise a default set by the admin flag. */
  function PostTitle(title: string, isAdmin: bool): (r: string)
    ensures |r| > 0
    ensures r[0] == '📌' <==> !AllWhitespace(title)
    ensures AllWhitespace(title) ==> r == AdminDefaultTitle || r == MemberDefaultTitle
  {
    if !IsBlank(title) then TitlePin + title
    else if isAdmin then AdminDefaultTitle
    else MemberDefaultTitle
  }

  /** A non-blank title is kept verbatim (untrimmed) behind the pin; a blank
      one yields the default; and the first character tells which happened. */
  lemma PostTitleOrigin(title: string, isAdmin: bool)
    ensures !AllWhitespace(title) ==>
      var r := PostTitle(title, isAdmin);
      |r| == |TitlePin| + |title| && r[..|TitlePin|] == TitlePin && r[|TitlePin|..] == title
    ensures AllWhitespace(title) ==>
      PostTitle(title, isAdmin) == (if isAdmin then AdminDefaultTitle else MemberDefaultTitle)
    ensures PostTitle(title, isAdmin)[0] == '📌' <==> !AllWhitespace(title)
  {
  }

  function HandleModalSubmit(p: Policy, m: Member, sub: Submission): (r: SubmitOutcome)
    ensures r == Ignored <==> sub.customId != SendModalId
    ensures r == NoPermission <==> sub.customId == SendModalId && !HasGuiPermission(p, m)
    // only a permitted caller with some non-whitespace content gets a post
    ensures r.Send? <==>
      sub.customId == SendModalId && HasGuiPermission(p, m) && !AllWhitespace(sub.content)
    ensures r == EmptyContent ==> AllWhitespace(sub.content)
    // the content is posted unchanged, styled by the caller's admin flag
    ensures r.Send? ==>
      r.post.description == sub.content && r.post.fromAdmin == m.isAdmin
      && r.post.title == PostTitle(sub.title, m.isAdmin)
  {
    if sub.customId != SendModalId then Ignored
    else if !HasGuiPermission(p, m) then NoPermission
    else if IsBlank(sub.content) then EmptyContent
    else Send(Post(PostTitle(sub.title, m.isAdmin), sub.content, m.isAdmin))
  }

  /** Whitespace-only content from anyone, even an administrator, is never
      posted, whatever the title. */
  lemma BlankContentNeverSent(p: Policy, m: Member, customId: string, content: string, title: string)
    requires AllWhitespace(content)
    ensures !HandleModalSubmit(p, m, Submission(customId, content, title)).Send?
  {
  }
}
