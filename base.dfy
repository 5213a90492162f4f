/** Shared vocabulary of the model: optional values and chat identities. */
module Base {

  /** A value that may be absent; stands for a Java reference that may be null. */
  datatype Option<+T> = None | Some(value: T)

  /** A Telegram chat id (a Java `Long`). */
  type ChatId = int

  function Max0(x: int): (r: int)
    ensures r >= 0 && r >= x
    ensures r == x || r == 0
  {
    if x > 0 then x else 0
  }
}
