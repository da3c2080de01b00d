/**
 * The key-value store behind `UserDefaults`. Each stored value keeps the
 * kind it was written with; the JSON encoding of an `UpdateInterval` is
 * kept as the record it encodes, and any other data blob is opaque.
 */
module UserDefaults {
  import opened UpdateIntervals

  datatype StoredValue =
    | StringValue(text: string)
    | EncodedInterval(interval: UpdateInterval)
    | OpaqueData(bytes: seq<bv8>)
    | DateValue(seconds: int)

  type Store = map<string, StoredValue>

  /** `data(forKey:)` and `JSONDecoder().decode(UpdateInterval.self, from:)` together. */
  predicate HoldsInterval(store: Store, key: string) {
    key in store && store[key].EncodedInterval?
  }
}
