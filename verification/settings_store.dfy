/**
 The settings store: a two-level dictionary (collection name, then key, then a
 flat settings mapping) kept inside the host application's key/value settings
 under one settings group fixed at construction.

 Each collection is one JSON blob under the slot (group, name). The host is
 modelled at the decoded level, together with the log of the slots it was asked
 to write, so that "no write happened" is observable and not merely "the state
 did not change".
 */
module SettingsStore {
  import opened SettingValues

  /** Address of one blob in the host settings: (settings group, collection name). */
  type Slot = (string, string)

  /** The host's persistent key/value settings, decoded, plus every write it received, in order. */
  datatype Host = Host(data: map<Slot, Collection>, writes: seq<Slot>)

  /** A host on which nothing was ever written. */
  const FreshHost: Host := Host(map[], [])

  /** Every slot holding data was put there by a logged write. */
  ghost predicate WritesCover(h: Host) {
    forall k :: k in h.data ==> k in h.writes
  }

  /** The store; all its reads and writes go to this settings group. */
  datatype Store = Store(group: string)

  function SlotOf(s: Store, name: string): Slot {
    (s.group, name)
  }

  /** Reads a whole collection; the host is asked with the fallback `{}`,
      so a slot that holds nothing reads as the empty collection. */
  function Dictionary(s: Store, h: Host, name: string): (d: Collection)
    ensures SlotOf(s, name) !in h.data ==> d == map[]
  {
    if SlotOf(s, name) in h.data then h.data[SlotOf(s, name)] else map[]
  }

  /** Writes a whole collection, replacing what was there (no merge). */
  function SetDictionary(s: Store, h: Host, name: string, value: Collection): (h': Host)
    ensures Dictionary(s, h', name) == value
    ensures h'.data - {SlotOf(s, name)} == h.data - {SlotOf(s, name)}
    ensures h'.writes == h.writes + [SlotOf(s, name)]
    ensures WritesCover(h) ==> WritesCover(h')
  {
    Host(h.data[SlotOf(s, name) := value], h.writes + [SlotOf(s, name)])
  }

  /** One flat settings mapping of a collection; a missing key reads as the empty mapping. */
  function SubDictionary(s: Store, h: Host, name: string, key: string): (d: SubDict)
    ensures key !in Dictionary(s, h, name) ==> d == map[]
    ensures key in Dictionary(s, h, name) ==> d == Dictionary(s, h, name)[key]
  {
    var dictionary := Dictionary(s, h, name);
    if key in dictionary then dictionary[key] else map[]
  }

  /** Inserts or overwrites one flat mapping by read-modify-write of its collection. */
  function SetSubDictionary(s: Store, h: Host, name: string, key: string, value: SubDict): (h': Host)
    ensures SubDictionary(s, h', name, key) == value
    ensures forall k :: k != key ==> SubDictionary(s, h', name, k) == SubDictionary(s, h, name, k)
    ensures Dictionary(s, h', name).Keys == Dictionary(s, h, name).Keys + {key}
    ensures h'.data - {SlotOf(s, name)} == h.data - {SlotOf(s, name)}
    ensures h'.writes == h.writes + [SlotOf(s, name)]
    ensures WritesCover(h) ==> WritesCover(h')
  {
    var dictionary := Dictionary(s, h, name);
    SetDictionary(s, h, name, dictionary[key := value])
  }

  /** Deletes one flat mapping; writes the collection back only when the key was present. */
  function RemoveSubDictionary(s: Store, h: Host, name: string, key: string): (h': Host)
    ensures SubDictionary(s, h', name, key) == map[]
    ensures key in Dictionary(s, h, name) ==>
              && Dictionary(s, h', name) == Dictionary(s, h, name) - {key}
              && h'.writes == h.writes + [SlotOf(s, name)]
    ensures key !in Dictionary(s, h, name) ==> h' == h
    ensures forall k :: k != key ==> SubDictionary(s, h', name, k) == SubDictionary(s, h, name, k)
    ensures h'.data - {SlotOf(s, name)} == h.data - {SlotOf(s, name)}
    ensures WritesCover(h) ==> WritesCover(h')
  {
    var dictionary := Dictionary(s, h, name);
    if key in dictionary then SetDictionary(s, h, name, dictionary - {key}) else h
  }

  /** A collection that was never written reads as empty, and so does every key in it. */
  lemma NeverWrittenReadsEmpty(s: Store, h: Host, name: string, key: string)
    requires WritesCover(h)
    requires SlotOf(s, name) !in h.writes
    ensures Dictionary(s, h, name) == map[]
    ensures SubDictionary(s, h, name, key) == map[]
  {
  }

  /** Storing the same flat mapping twice leaves the same persisted state as storing it once. */
  lemma SetSubDictionaryIdempotent(s: Store, h: Host, name: string, key: string, value: SubDict)
    ensures SetSubDictionary(s, SetSubDictionary(s, h, name, key, value), name, key, value).data
         == SetSubDictionary(s, h, name, key, value).data
  {
    var d := Dictionary(s, h, name);
    var h1 := SetSubDictionary(s, h, name, key, value);
    assert Dictionary(s, h1, name) == d[key := value];
    assert d[key := value][key := value] == d[key := value];
    assert h1.data[SlotOf(s, name) := d[key := value]] == h1.data;
  }

  /** Of two stores to the same key, the later one is what persists. */
  lemma SetSubDictionaryLastWins(s: Store, h: Host, name: string, key: string, v1: SubDict, v2: SubDict)
    ensures SetSubDictionary(s, SetSubDictionary(s, h, name, key, v1), name, key, v2).data
         == SetSubDictionary(s, h, name, key, v2).data
  {
    var d := Dictionary(s, h, name);
    var h1 := SetSubDictionary(s, h, name, key, v1);
    assert Dictionary(s, h1, name) == d[key := v1];
    assert d[key := v1][key := v2] == d[key := v2];
    assert h1.data[SlotOf(s, name) := d[key := v2]] == h.data[SlotOf(s, name) := d[key := v2]];
  }

  /** Stores to two different keys of one collection commute. */
  lemma SetSubDictionaryCommutes(s: Store, h: Host, name: string, k1: string, v1: SubDict, k2: string, v2: SubDict)
    requires k1 != k2
    ensures SetSubDictionary(s, SetSubDictionary(s, h, name, k1, v1), name, k2, v2).data
         == SetSubDictionary(s, SetSubDictionary(s, h, name, k2, v2), name, k1, v1).data
  {
    var d := Dictionary(s, h, name);
    var h1 := SetSubDictionary(s, h, name, k1, v1);
    var h2 := SetSubDictionary(s, h, name, k2, v2);
    assert Dictionary(s, h1, name) == d[k1 := v1];
    assert Dictionary(s, h2, name) == d[k2 := v2];
    assert d[k1 := v1][k2 := v2] == d[k2 := v2][k1 := v1];
    assert h1.data[SlotOf(s, name) := d[k1 := v1][k2 := v2]] == h2.data[SlotOf(s, name) := d[k2 := v2][k1 := v1]];
  }

  /** Removing a freshly stored key restores the collection to what it was before, less that key. */
  lemma RemoveAfterSet(s: Store, h: Host, name: string, key: string, value: SubDict)
    ensures Dictionary(s, RemoveSubDictionary(s, SetSubDictionary(s, h, name, key, value), name, key), name)
         == Dictionary(s, h, name) - {key}
  {
  }
}
