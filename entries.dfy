/** The one persisted record of the journal and the reading of the stored collection. */
module Entries {
  import opened Wrappers

  /** A memory. `image` is a data URL or absent (`null`); `createdAt` is an ISO timestamp. */
  datatype Entry = Entry(
    id: string,
    title: string,
    date: string,
    description: string,
    image: Option<string>,
    tags: seq<string>,
    favorite: bool,
    createdAt: string)

  /** `getMemories`: a missing key or a blob that does not parse (`None`) reads as no entries. */
  function Load(stored: Option<seq<Entry>>): (r: seq<Entry>)
    ensures stored.None? ==> r == []
    ensures stored.Some? ==> r == stored.value
  {
    stored.GetOr([])
  }

  /** `memories.findIndex(m => m.id === id)`: the first entry carrying `id`, or -1. */
  function IndexOfId(ms: seq<Entry>, id: string): (i: int)
    ensures -1 <= i < |ms|
    ensures i == -1 <==> forall k :: 0 <= k < |ms| ==> ms[k].id != id
    ensures 0 <= i ==> ms[i].id == id && forall k :: 0 <= k < i ==> ms[k].id != id
  {
    if ms == [] then -1
    else if ms[0].id == id then 0
    else
      var j := IndexOfId(ms[1..], id);
      if j == -1 then -1 else j + 1
  }

  /** Two collections list the same ids in the same order. */
  predicate SameIds(ms: seq<Entry>, ns: seq<Entry>)
  {
    |ms| == |ns| && forall k :: 0 <= k < |ms| ==> ms[k].id == ns[k].id
  }

  /** Lookup by id only sees the ids: collections with the same id sequence answer alike. */
  lemma {:induction false} IndexOfIdSameIds(ms: seq<Entry>, ns: seq<Entry>, id: string)
    requires SameIds(ms, ns)
    ensures IndexOfId(ms, id) == IndexOfId(ns, id)
  {
    if ms != [] && ms[0].id != id {
      IndexOfIdSameIds(ms[1..], ns[1..], id);
    }
  }
}
