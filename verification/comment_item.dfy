/** One comment of a thread: its reply box, the reply it creates, its
    collapsible replies and the title it hands to the report dialog. */
module CommentItem {
  import opened Common
  import opened Text
  import opened Decimal

  /** A `comments` row as the thread shows it; `children` holds the replies
      the thread builder attached, and is absent on a comment never nested. */
  datatype Comment = Comment(
    id: int,
    postId: int,
    content: string,
    parentCommentId: Option<int>,
    userId: string,
    author: string,
    createdAt: string,
    children: Option<seq<Comment>>)

  /** The row a reply inserts. */
  datatype NewReply = NewReply(postId: int, content: string, parentCommentId: int, userId: string, author: string)

  const NotSignedIn: string := "You must be logged in to reply."

  /** `createReply` up to the insert: without a non-empty user id and author
      name it fails; otherwise it yields the row that links the reply to its
      parent comment and to the post. */
  function CreateReply(content: string, postId: int, parentId: int, userId: Option<string>, author: Option<string>): (r: Result<NewReply>)
    ensures r.Ok? <==> TruthyOpt(userId) && TruthyOpt(author)
    ensures r.Err? ==> r.message == NotSignedIn
    ensures r.Ok? ==> r.value == NewReply(postId, content, parentId, userId.value, author.value)
  {
    if !TruthyOpt(userId) || !TruthyOpt(author) then Err(NotSignedIn)
    else Ok(NewReply(postId, content, parentId, userId.value, author.value))
  }

  /** A reply typed under comment `c`, shown in the thread of post `postId`,
      and sent by a signed-in user is stored as a child of `c` in that post,
      with exactly the typed text, and the user as its author. */
  lemma ReplyJoinsThread(c: Comment, postId: int, v: View, userId: string, author: string)
    requires SubmitReply(v).Some? && userId != "" && author != ""
    ensures var r := CreateReply(SubmitReply(v).value, postId, c.id, Some(userId), Some(author));
      r.Ok? && r.value.parentCommentId == c.id && r.value.postId == postId
      && r.value.content == v.replyText && r.value.userId == userId && r.value.author == author
  {
  }

  /** The comment's local state. */
  datatype View = View(showReply: bool, replyText: string, collapsed: bool, showReport: bool)

  const InitialView: View := View(false, "", false, false)

  /** The Reply/Cancel button. */
  function ToggleReply(v: View): (w: View)
    ensures w.showReply == !v.showReply
    ensures w.(showReply := v.showReply) == v
  {
    v.(showReply := !v.showReply)
  }

  /** The reply form is on screen only while open and with a user signed in. */
  predicate ReplyFormShown(v: View, signedIn: bool) {
    v.showReply && signedIn
  }

  /** `handleReplySubmit`: the text to send, if any. An empty text is not
      sent; text of spaces alone is. */
  function SubmitReply(v: View): (sent: Option<string>)
    ensures sent.Some? <==> v.replyText != ""
    ensures sent.Some? ==> sent.value == v.replyText
  {
    if v.replyText == "" then None else Some(v.replyText)
  }

  /** Blank replies are sent as typed. */
  lemma BlankReplyIsSent(v: View)
    requires v.replyText != "" && IsBlank(v.replyText)
    ensures SubmitReply(v) == Some(v.replyText)
  {
  }

  /** A successful reply clears the text and closes the box; the replies'
      collapse state and the report dialog are kept. */
  function ReplySucceeded(v: View): (w: View)
    ensures w.replyText == "" && !w.showReply
    ensures w.collapsed == v.collapsed && w.showReport == v.showReport
  {
    v.(replyText := "", showReply := false)
  }

  /** After a success nothing is left to send until the user types again. */
  lemma NothingToResend(v: View)
    ensures SubmitReply(ReplySucceeded(v)).None?
    ensures !ReplyFormShown(ReplySucceeded(v), true)
  {
  }

  /** The replies toggle appears only for a comment with at least one reply. */
  predicate HasReplies(c: Comment) {
    c.children.Some? && |c.children.value| > 0
  }

  /** The replies rendered under a comment. */
  function ShownReplies(c: Comment, v: View): (shown: seq<Comment>)
    ensures !HasReplies(c) || v.collapsed ==> shown == []
    ensures HasReplies(c) && !v.collapsed ==> shown == c.children.value
  {
    if HasReplies(c) && !v.collapsed then c.children.value else []
  }

  /** `{n} {n === 1 ? 'reply' : 'replies'}`. */
  function ReplyCount(n: nat): (text: string)
    ensures EndsWith(text, " reply") <==> n == 1
    ensures EndsWith(text, if n == 1 then " reply" else " replies")
  {
    var noun := if n == 1 then "reply" else "replies";
    var text := Show(n) + " " + noun;
    assert text[|text| - 6..] == if n == 1 then " reply" else "eplies";
    assert n != 1 ==> text[|text| - 8..] == " replies";
    text
  }

  /** The caption starts with the number of replies, which can be read back. */
  lemma ReplyCountReadsBack(n: nat)
    ensures var text := ReplyCount(n); var k := |Show(n)|;
      k < |text| && text[k] == ' ' && AllDigits(text[..k]) && Parse(text[..k]) == n
  {
    var text := ReplyCount(n);
    assert text[..|Show(n)|] == Show(n);
    ParseShow(n);
  }

  /** The longest content the report dialog shows whole. */
  const TitleLimit: nat := 50

  /** `content.substring(0, 50) + (content.length > 50 ? '...' : '')`. */
  function ReportTitle(content: string): (title: string)
    ensures |content| <= TitleLimit ==> title == content
    ensures |content| > TitleLimit ==> |title| == TitleLimit + 3 && title[..TitleLimit] == content[..TitleLimit] && EndsWith(title, "...")
  {
    if |content| <= TitleLimit then content
    else
      var title := content[..TitleLimit] + "...";
      assert title[..TitleLimit] == content[..TitleLimit];
      assert title[TitleLimit..] == "...";
      title
  }

  /** Two comments get the same title exactly when both are short and equal,
      or both are long and agree on their first fifty characters: a cut title
      is never mistaken for a whole one. */
  lemma ReportTitleCollisions(a: string, b: string)
    ensures ReportTitle(a) == ReportTitle(b) <==>
      (|a| <= TitleLimit && a == b) || (|a| > TitleLimit && |b| > TitleLimit && a[..TitleLimit] == b[..TitleLimit])
  {
    if |a| > TitleLimit && |b| > TitleLimit && a[..TitleLimit] == b[..TitleLimit] {
      assert ReportTitle(a) == a[..TitleLimit] + "..." == b[..TitleLimit] + "..." == ReportTitle(b);
    }
  }
}
