/** The lines the server of HW4 answers with. */
module UploadReplies {

  const WELCOME_MSG := "+OK Welcome to file server\r\n"
  const CONFIRM_MSG := "+OK Please send file\r\n"
  const SUCCESS_MSG := "+OK Successful upload\r\n"
  const ERROR_INVALID_CMD := "-ERR Invalid command format\r\n"
  const ERROR_UPLOAD_FAIL := "-ERR Upload failed\r\n"

  datatype Reply = Welcome | Confirm | InvalidCommand | Success | UploadFailed

  function TextOf(r: Reply): string {
    match r
    case Welcome => WELCOME_MSG
    case Confirm => CONFIRM_MSG
    case InvalidCommand => ERROR_INVALID_CMD
    case Success => SUCCESS_MSG
    case UploadFailed => ERROR_UPLOAD_FAIL
  }

  /** The client looks at the first three characters only. */
  predicate Positive(r: Reply): (b: bool)
    ensures b <==> r != InvalidCommand && r != UploadFailed
  {
    var t := TextOf(r);
    assert |t| > 4 && t[..3] == [t[0], t[1], t[2]];
    t[..3] == "+OK"
  }

  /** The replies are told apart by their texts. */
  lemma TextsDiffer(r: Reply, q: Reply)
    requires TextOf(r) == TextOf(q)
    ensures r == q
  {
    var t, u := TextOf(r), TextOf(q);
    assert t[0] == u[0] && t[4] == u[4] && t[5] == u[5];
  }
}
