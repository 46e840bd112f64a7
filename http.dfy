/** What an Express handler sends back: a status code, the JSON body's `message`
    (the empty string where the body carries none) and the payload, if any. */
module Http {
  import opened Js

  datatype Reply<T> = Reply(status: int, message: string, payload: Option<T>)
}
