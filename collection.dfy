/**
 * The changes the editor makes to the loaded collection, as functions of the
 * collection before the change: edit, favourite toggle, delete and import.
 */
module Collection {
  import opened Wrappers
  import opened Entries
  import opened Seqs

  /** The fields an edit replaces; `id`, `favorite` and `createdAt` are not among them. */
  datatype Edit = Edit(title: string, date: string, description: string, image: Option<string>, tags: seq<string>)

  function ApplyEdit(e: Entry, ed: Edit): (r: Entry)
    ensures r.id == e.id && r.favorite == e.favorite && r.createdAt == e.createdAt
    ensures r.title == ed.title && r.date == ed.date && r.description == ed.description
    ensures r.image == ed.image && r.tags == ed.tags
  {
    e.(title := ed.title, date := ed.date, description := ed.description, image := ed.image, tags := ed.tags)
  }

  /** `updateMemory`: the first entry with `id` takes the edited fields; an absent id changes nothing. */
  function Updated(ms: seq<Entry>, id: string, ed: Edit): (r: seq<Entry>)
    ensures SameIds(ms, r)
    ensures IndexOfId(ms, id) == -1 ==> r == ms
    ensures forall k :: 0 <= k < |ms| && k != IndexOfId(ms, id) ==> r[k] == ms[k]
    ensures var i := IndexOfId(ms, id);
      0 <= i ==>
        && r[i].id == ms[i].id && r[i].favorite == ms[i].favorite && r[i].createdAt == ms[i].createdAt
        && r[i].title == ed.title && r[i].date == ed.date && r[i].description == ed.description
        && r[i].image == ed.image && r[i].tags == ed.tags
  {
    var i := IndexOfId(ms, id);
    if i == -1 then ms else ms[i := ApplyEdit(ms[i], ed)]
  }

  /** Saving the same edit twice is the same as saving it once. */
  lemma UpdateIdempotent(ms: seq<Entry>, id: string, ed: Edit)
    ensures Updated(Updated(ms, id, ed), id, ed) == Updated(ms, id, ed)
  {
    IndexOfIdSameIds(ms, Updated(ms, id, ed), id);
  }

  /** `toggleFavorite`: the first entry with `id` flips its flag; an absent id changes nothing. */
  function Toggled(ms: seq<Entry>, id: string): (r: seq<Entry>)
    ensures SameIds(ms, r)
    ensures IndexOfId(ms, id) == -1 ==> r == ms
    ensures forall k :: 0 <= k < |ms| && k != IndexOfId(ms, id) ==> r[k] == ms[k]
    ensures var i := IndexOfId(ms, id);
      0 <= i ==> r[i] == ms[i].(favorite := !ms[i].favorite)
  {
    var i := IndexOfId(ms, id);
    if i == -1 then ms else ms[i := ms[i].(favorite := !ms[i].favorite)]
  }

  /** Toggling twice restores the collection. */
  lemma ToggleTwice(ms: seq<Entry>, id: string)
    ensures Toggled(Toggled(ms, id), id) == ms
  {
    IndexOfIdSameIds(ms, Toggled(ms, id), id);
  }

  /** `deleteMemory`: `memories.filter(m => m.id !== id)`. */
  function WithoutId(ms: seq<Entry>, id: string): (r: seq<Entry>)
    ensures IndexOfId(r, id) == -1
    ensures IsSubsequence(r, ms)
    ensures forall e: Entry :: e.id != id ==> multiset(r)[e] == multiset(ms)[e]
    ensures forall e: Entry :: e.id == id ==> e !in r
  {
    Filter(ms, (e: Entry) => e.id != id)
  }

  /** Deleting an id nobody has leaves the collection as it was. */
  lemma DeleteAbsent(ms: seq<Entry>, id: string)
    requires IndexOfId(ms, id) == -1
    ensures WithoutId(ms, id) == ms
  {
    FilterKeepsAll(ms, (e: Entry) => e.id != id);
  }

  /** What the chosen import file parsed to. */
  datatype Payload = Unparsable | NotAnArray | EntryArray(entries: seq<Entry>)

  /** The import handler: `None` is the alert with the store untouched; otherwise the new stored
      collection, replacing the current one or placed in front of it. */
  function Imported(current: seq<Entry>, payload: Payload, replace: bool): (r: Option<seq<Entry>>)
    ensures r.None? <==> !payload.EntryArray?
    ensures payload.EntryArray? && replace ==> r == Some(payload.entries)
    ensures payload.EntryArray? && !replace ==>
      && |r.value| == |payload.entries| + |current|
      && r.value[..|payload.entries|] == payload.entries
      && r.value[|payload.entries|..] == current
  {
    match payload
    case EntryArray(imported) => if replace then Some(imported) else Some(imported + current)
    case _ => None
  }

  /** Appending does not de-duplicate: the stored list holds every entry as often as the file
      and the old list together, so an entry present in both is stored at least twice. */
  lemma AppendCounts(current: seq<Entry>, imported: seq<Entry>)
    ensures var r := Imported(current, EntryArray(imported), false);
      && r.Some? && multiset(r.value) == multiset(imported) + multiset(current)
      && forall e :: e in imported && e in current ==> multiset(r.value)[e] >= 2
  {
    var r := Imported(current, EntryArray(imported), false);
    assert r.value == imported + current;
  }

  /** For example, importing the one entry already stored stores it twice. */
  lemma AppendKeepsDuplicates(e: Entry)
    ensures Imported([e], EntryArray([e]), false) == Some([e, e])
  {
    assert [e] + [e] == [e, e];
  }
}
