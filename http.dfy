/**
 * What an Express handler writes back: a status code and a JSON body that
 * is either the payload or `{ error: message }`. Success messages that only
 * accompany a payload are not modelled.
 */
module Http {
  import opened Wrappers

  datatype Body<T> = Data(value: T) | Error(message: string)

  datatype Reply<T> = Reply(status: int, body: Body<T>)

  /** An error reply with no payload. */
  function Fail<T>(status: int, message: string): Reply<T> {
    Reply(status, Error(message))
  }

  /** JavaScript truthiness of an optional request field: absent and "" are false. */
  predicate Present(field: Option<string>) {
    field.Some? && field.value != ""
  }

  /** JavaScript truthiness of a nullable id: null and 0 are false. */
  predicate Truthy(id: Option<int>) {
    id.Some? && id.value != 0
  }
}
