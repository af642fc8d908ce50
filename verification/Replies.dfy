/** What a bridge response can tell a waiting hook or agent to do (`ReplyAction` of
    `crates/core/src/lib.rs`). */
module Replies {

  datatype ReplyAction = Allow | Deny | PassThrough | Ping | Answer
}
