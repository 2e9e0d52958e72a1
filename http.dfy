/** The JSON replies the two handlers send: a status and the fields of the body that are present. */
module Http {
  import opened Wrappers

  datatype Reply = Reply(
    status: nat,
    success: Option<bool>,
    email: Option<string>,
    message: Option<string>,
    error: Option<string>,
    code: Option<string>)
}
