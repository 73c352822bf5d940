/** The browser's local storage, as seen through one key. Serialisation is not part of
    the model: a slot either is missing, cannot be read back (storage disabled, or
    content `JSON.parse` rejects), or holds a list of records. */
module Storage {

  datatype Slot<T> = Missing | Unreadable | Holds(items: seq<T>)

  /** `data ? JSON.parse(data) : []` inside a `try` whose `catch` returns `[]`:
      the stored list, or the empty list whenever there is none to read. */
  function Load<T>(slot: Slot<T>): seq<T> {
    if slot.Holds? then slot.items else []
  }
}
