/** The admin-boards endpoint: with any non-empty token it adds a board
    (after sanitising its fields, 200 characters at most) or deletes one by
    id. The token is only tested for presence; it is not compared with the
    tokens admin-auth hands out. */
module AdminBoards {
  import opened Wrappers
  import opened JsText
  import opened ContentFilter

  /** The `board` member of the body; `None` is a member that is missing,
      null or not a string. `nsfw` is `board.nsfw` when that is a boolean,
      and false when it is missing or null, as `board.nsfw || false`
      gives. */
  datatype BoardFields = BoardFields(
    slug: Option<string>,
    name: Option<string>,
    description: Option<string>,
    nsfw: bool)

  /** The members the handler destructures. `board` is `None` when falsy. */
  datatype BoardsFields = BoardsFields(
    action: Option<string>,
    token: Option<string>,
    board: Option<BoardFields>,
    boardId: Option<string>)

  datatype BoardsBody = Malformed(message: string) | Parsed(fields: BoardsFields)

  datatype BoardsRequest = Preflight | Post(body: BoardsBody)

  /** The row inserted into `boards`. */
  datatype BoardRow = BoardRow(slug: string, name: string, description: Option<string>, nsfw: bool)

  /** The change made to `boards`. */
  datatype Change = NoChange | Insert(row: BoardRow) | Delete(boardId: string)

  datatype BoardsReply = CorsOk | Failure(status: int, error: string) | Success

  /** The reply, the change applied to the table and the admin action logged. */
  datatype BoardsOutcome = BoardsOutcome(reply: BoardsReply, change: Change, action: Option<string>)

  predicate IsSlugChar(c: char) {
    ('a' <= c <= 'z') || ('0' <= c <= '9')
  }

  predicate NotSlugChar(c: char) {
    !IsSlugChar(c)
  }

  /** `sanitizeInput(board.slug).toLowerCase().replace(/[^a-z0-9]/g, '')` */
  function Slug(slug: Option<string>): (r: string)
    ensures forall c :: c in r ==> IsSlugChar(c)
    ensures |r| <= MaxBoardFieldLength
  {
    var s := SanitizeField(slug, MaxBoardFieldLength);
    SlugNoLonger(s);
    Filter(ToLower(s), NotSlugChar)
  }

  /** Lower-casing can lengthen a text (`İ` becomes `i` and a combining
      dot), but never by a character the slug filter keeps. */
  lemma {:induction false} SlugNoLonger(s: string)
    ensures |Filter(ToLower(s), NotSlugChar)| <= |s|
    decreases |s|
  {
    if s != [] {
      FilterConcat(LowerChar(s[0]), ToLower(s[1..]), NotSlugChar);
      SlugNoLonger(s[1..]);
      var l := LowerChar(s[0]);
      if |l| == 2 {
        assert l == "i\U{0307}";
        assert Filter(l, NotSlugChar) == "i";
      }
    }
  }

  /** The sanitised board: the slug reduced to `a-z0-9`, the name sanitised
      (a non-string name becomes ""), the description null when falsy and
      sanitised otherwise, and `nsfw` kept. */
  function BoardRowOf(b: BoardFields): (row: BoardRow)
    ensures row.slug == Slug(b.slug)
    ensures row.name == SanitizeField(b.name, MaxBoardFieldLength)
    ensures row.nsfw == b.nsfw
    ensures forall c :: c in row.slug ==> IsSlugChar(c)
    ensures |row.slug| <= MaxBoardFieldLength && |row.name| <= MaxBoardFieldLength
    ensures '<' !in row.name && '>' !in row.name
    ensures row.description.Some? <==> Truthy(b.description)
    ensures row.description.Some? ==>
              row.description.value == SanitizeInput(b.description.value, MaxBoardFieldLength)
  {
    BoardRow(Slug(b.slug), SanitizeField(b.name, MaxBoardFieldLength),
             if Truthy(b.description) then Some(SanitizeInput(b.description.value, MaxBoardFieldLength)) else None,
             b.nsfw)
  }

  /** The admin-boards handler; `insertError` is the error the insert
      reports, if any. */
  function HandleBoards(req: BoardsRequest, insertError: Option<string>): (o: BoardsOutcome)
    ensures o.change != NoChange ==> o.reply == Success
    ensures o.reply.Failure? ==> o.reply.status == 401 || o.reply.status == 500
    ensures req.Preflight? ==> o == BoardsOutcome(CorsOk, NoChange, None)
    ensures req.Post? ==>
              match req.body
              case Malformed(message) => o == BoardsOutcome(Failure(500, message), NoChange, None)
              case Parsed(f) =>
                var add := f.action == Some("add") && f.board.Some?;
                var delete := f.action == Some("delete") && Truthy(f.boardId);
                && (Truthy(f.token) && add && insertError.Some? ==>
                      o == BoardsOutcome(Failure(500, insertError.value), NoChange, None))
                && (Truthy(f.token) && !add && !delete ==> o == BoardsOutcome(Success, NoChange, None))
  {
    match req
    case Preflight => BoardsOutcome(CorsOk, NoChange, None)
    case Post(Malformed(message)) => BoardsOutcome(Failure(500, message), NoChange, None)
    case Post(Parsed(f)) =>
      if !Truthy(f.token) then
        BoardsOutcome(Failure(401, "Unauthorized"), NoChange, Some("unauthorized_access"))
      else if f.action == Some("add") && f.board.Some? then
        if insertError.Some? then BoardsOutcome(Failure(500, insertError.value), NoChange, None)
        else BoardsOutcome(Success, Insert(BoardRowOf(f.board.value)), Some("board_added"))
      else if f.action == Some("delete") && Truthy(f.boardId) then
        BoardsOutcome(Success, Delete(f.boardId.value), Some("board_deleted"))
      else
        BoardsOutcome(Success, NoChange, None)
  }

  // ---------------------------------------------------------------------
  // Properties

  /** Without a token nothing changes and the caller gets 401. */
  lemma NoTokenNoChange(f: BoardsFields, insertError: Option<string>)
    requires !Truthy(f.token)
    ensures HandleBoards(Post(Parsed(f)), insertError) ==
              BoardsOutcome(Failure(401, "Unauthorized"), NoChange, Some("unauthorized_access"))
  {
  }

  /** With a token, the table is changed exactly for `add` with a board
      (when the insert succeeds), inserting the sanitised board, or for
      `delete` with an id, deleting that id; any other combination, `add`
      without a board and `delete` without an id included, succeeds without
      a change. */
  lemma ChangeFollowsAction(f: BoardsFields, insertError: Option<string>)
    ensures var o := HandleBoards(Post(Parsed(f)), insertError);
      (o.change.Insert? <==>
         Truthy(f.token) && f.action == Some("add") && f.board.Some? && insertError.None?) &&
      (o.change.Insert? ==> o.change.row == BoardRowOf(f.board.value) && o.action == Some("board_added")) &&
      (o.change.Delete? <==>
         Truthy(f.token) && f.action == Some("delete") && Truthy(f.boardId)) &&
      (o.change.Delete? ==> o.change.boardId == f.boardId.value && o.action == Some("board_deleted")) &&
      (Truthy(f.token) && !(f.action == Some("add") && f.board.Some?)
         && !(f.action == Some("delete") && Truthy(f.boardId)) ==>
         o == BoardsOutcome(Success, NoChange, None))
  {
  }

  /** Any non-empty token authorises a change: the outcome does not depend on
      which token was sent. */
  lemma AnyTokenAuthorises(f: BoardsFields, t1: string, t2: string, insertError: Option<string>)
    requires t1 != "" && t2 != ""
    ensures HandleBoards(Post(Parsed(f.(token := Some(t1)))), insertError) ==
              HandleBoards(Post(Parsed(f.(token := Some(t2)))), insertError)
    ensures f.action == Some("add") && f.board.Some? && insertError.None? ==>
              HandleBoards(Post(Parsed(f.(token := Some(t1)))), insertError).change.Insert?
  {
  }

  /** A slug that is already lower-case letters and digits, at most 200 of
      them, is stored unchanged. */
  lemma {:induction false} CleanSlugIsKept(slug: string)
    requires forall c :: c in slug ==> IsSlugChar(c)
    requires |slug| <= MaxBoardFieldLength
    ensures Slug(Some(slug)) == slug
  {
    assert forall c :: c in slug ==> !IsSpace(c) && c != '<' && c != '>' && c != ':' && c != '=';
    CleanTextIsUnchanged(slug, MaxBoardFieldLength);
    LowerKeepsSlugChars(slug);
    FilterKeepsAll(slug, NotSlugChar);
  }

  lemma {:induction false} LowerKeepsSlugChars(s: string)
    requires forall c :: c in s ==> IsSlugChar(c)
    ensures ToLower(s) == s
    decreases |s|
  {
    if s != [] {
      assert s[0] in s;
      assert LowerChar(s[0]) == [s[0]];
      assert forall c :: c in s[1..] ==> c in s;
      LowerKeepsSlugChars(s[1..]);
      assert s == [s[0]] + s[1..];
    }
  }
}
