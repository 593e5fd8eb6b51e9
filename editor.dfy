/**
 * The editor page (script.js): the stored collection, the form's editing state and
 * the favourites filter, with the handlers that change them.
 */
module Editor {
  import opened Wrappers
  import opened Text
  import opened Entries
  import opened Tags
  import opened Form
  import opened Collection
  import opened Search
  import opened Seqs

  /** `x || null` for an image: an empty string counts as no image. */
  function Truthy(image: Option<string>): (r: Option<string>)
    ensures r.None? <==> (image.None? || image == Some(""))
    ensures r.Some? ==> r == image
  {
    if image == Some("") then None else image
  }

  /** What `beginEdit` puts in the form for an entry. */
  function FormOf(e: Entry): (r: FormFields)
    ensures r.title == e.title && r.date == e.date && r.description == e.description
    ensures (forall k :: 0 <= k < |e.tags| ==> IsTag(e.tags[k])) ==> ParseTags(r.tags) == e.tags
  {
    var r := FormFields(e.title, e.date, e.description, TagsField(e.tags));
    if forall k :: 0 <= k < |e.tags| ==> IsTag(e.tags[k]) then
      TagsRoundTrip(e.tags);
      r
    else
      r
  }

  /** What a submitted form turns into: trimmed title and description, the raw date, parsed tags. */
  function EditOf(form: FormFields, image: Option<string>): (ed: Edit)
    ensures Trimmed(ed.title) && |ed.title| <= |form.title|
    ensures Trimmed(ed.description) && |ed.description| <= |form.description|
    ensures Trimmed(form.title) ==> ed.title == form.title
    ensures Trimmed(form.description) ==> ed.description == form.description
    ensures ed.date == form.date && ed.image == image
    ensures forall k :: 0 <= k < |ed.tags| ==> IsTag(ed.tags[k])
  {
    Edit(Trim(form.title), form.date, Trim(form.description), image, ParseTags(form.tags))
  }

  /** An entry as the form saves it: trimmed text fields, well-formed tags, no empty-string image. */
  predicate WellFormed(e: Entry)
  {
    && Trimmed(e.title) && Trimmed(e.description)
    && (forall k :: 0 <= k < |e.tags| ==> IsTag(e.tags[k]))
    && e.image != Some("")
  }

  /** Opening a well-formed entry for editing and saving the form unchanged, with no new
      image file, writes back exactly the entry that was there. */
  lemma ResubmitUnchanged(e: Entry)
    requires WellFormed(e)
    ensures ApplyEdit(e, EditOf(FormOf(e), Truthy(e.image))) == e
  {
    TagsRoundTrip(e.tags);
  }

  class Journal {
    /** The `localStorage` slot: `None` when the key is missing or its JSON does not parse. */
    var storage: Option<seq<Entry>>
    var editingId: Option<string>
    var editingOriginalImage: Option<string>
    var showFavoritesOnly: bool

    constructor (stored: Option<seq<Entry>>)
      ensures storage == stored && editingId == None && editingOriginalImage == None && !showFavoritesOnly
    {
      storage := stored;
      editingId := None;
      editingOriginalImage := None;
      showFavoritesOnly := false;
    }

    /** `getMemories()` */
    function Memories(): seq<Entry>
      reads this
    {
      Load(storage)
    }

    /** `if (editingId)`: an edit is in progress (the empty string is falsy). */
    predicate Editing()
      reads this
    {
      editingId.Some? && editingId.value != ""
    }

    /** `resetForm`, as far as the page's state goes. */
    method ResetForm()
      modifies this
      ensures editingId == None && editingOriginalImage == None
      ensures storage == old(storage) && showFavoritesOnly == old(showFavoritesOnly)
    {
      editingId := None;
      editingOriginalImage := None;
    }

    /** `saveMemory`: the new entry goes in front of the stored ones. */
    method SaveMemory(title: string, date: string, description: string, image: Option<string>,
                      tags: Option<seq<string>>, id: string, createdAt: string)
      modifies this
      ensures storage.Some? && |Memories()| == |old(Memories())| + 1
      ensures Memories()[0] == Entry(id, title, date, description, image, tags.GetOr([]), false, createdAt)
      ensures Memories()[1..] == old(Memories())
      ensures editingId == None && editingOriginalImage == None && showFavoritesOnly == old(showFavoritesOnly)
    {
      var memories := Memories();
      var memory := Entry(id, title, date, description, image, tags.GetOr([]), false, createdAt);
      memories := [memory] + memories;
      storage := Some(memories);
      ResetForm();
    }

    /** `updateMemory`: an absent id returns before anything is written or reset. */
    method UpdateMemory(id: string, title: string, date: string, description: string, image: Option<string>,
                        tags: Option<seq<string>>)
      modifies this
      ensures IndexOfId(old(Memories()), id) == -1 ==> unchanged(this)
      ensures IndexOfId(old(Memories()), id) != -1 ==>
        && storage == Some(Updated(old(Memories()), id, Edit(title, date, description, image, tags.GetOr([]))))
        && editingId == None && editingOriginalImage == None && showFavoritesOnly == old(showFavoritesOnly)
    {
      var memories := Memories();
      var i := IndexOfId(memories, id);
      if i == -1 {
        return;
      }
      memories := memories[i := memories[i].(title := title, date := date, description := description,
                                             image := image, tags := tags.GetOr([]))];
      storage := Some(memories);
      ResetForm();
    }

    /** `deleteMemory`: nothing happens unless the user confirms; then the filtered collection
        is written back, even when no entry had that id. */
    method DeleteMemory(id: string, confirmed: bool)
      modifies this
      ensures !confirmed ==> unchanged(this)
      ensures confirmed ==> storage == Some(WithoutId(old(Memories()), id))
      ensures editingId == old(editingId) && editingOriginalImage == old(editingOriginalImage)
      ensures showFavoritesOnly == old(showFavoritesOnly)
    {
      if !confirmed {
        return;
      }
      var memories := Memories();
      storage := Some(WithoutId(memories, id));
    }

    /** `toggleFavorite` */
    method ToggleFavorite(id: string)
      modifies this
      ensures IndexOfId(old(Memories()), id) == -1 ==> unchanged(this)
      ensures IndexOfId(old(Memories()), id) != -1 ==> storage == Some(Toggled(old(Memories()), id))
      ensures editingId == old(editingId) && editingOriginalImage == old(editingOriginalImage)
      ensures showFavoritesOnly == old(showFavoritesOnly)
    {
      var memories := Memories();
      var i := IndexOfId(memories, id);
      if i == -1 {
        return;
      }
      memories := memories[i := memories[i].(favorite := !memories[i].favorite)];
      storage := Some(memories);
    }

    /** `beginEdit`: remembers which entry is edited and its image, and returns what the form shows. */
    method BeginEdit(id: string) returns (filled: Option<FormFields>)
      modifies this
      ensures IndexOfId(old(Memories()), id) == -1 ==> unchanged(this) && filled == None
      ensures var i := IndexOfId(old(Memories()), id);
        i != -1 ==>
          && filled == Some(FormOf(old(Memories())[i]))
          && editingId == Some(id)
          && editingOriginalImage == Truthy(old(Memories())[i].image)
          && storage == old(storage) && showFavoritesOnly == old(showFavoritesOnly)
    {
      var memories := Memories();
      var i := IndexOfId(memories, id);
      if i == -1 {
        return None;
      }
      var m := memories[i];
      editingId := Some(id);
      editingOriginalImage := Truthy(m.image);
      filled := Some(FormOf(m));
    }

    /** The `finish` step of the submit handler: update the edited entry, or save a new one. */
    method Finish(ed: Edit, newId: string, createdAt: string)
      modifies this
      ensures old(Editing()) ==>
        var i := IndexOfId(old(Memories()), old(editingId).value);
        && (i == -1 ==> unchanged(this))
        && (i != -1 ==>
              && storage == Some(Updated(old(Memories()), old(editingId).value, ed))
              && editingId == None && editingOriginalImage == None && showFavoritesOnly == old(showFavoritesOnly))
      ensures !old(Editing()) ==>
        && storage == Some([Entry(newId, ed.title, ed.date, ed.description, ed.image, ed.tags, false, createdAt)]
                           + old(Memories()))
        && editingId == None && editingOriginalImage == None && showFavoritesOnly == old(showFavoritesOnly)
    {
      if Editing() {
        UpdateMemory(editingId.value, ed.title, ed.date, ed.description, ed.image, Some(ed.tags));
      } else {
        SaveMemory(ed.title, ed.date, ed.description, ed.image, Some(ed.tags), newId, createdAt);
        assert Memories() == [Memories()[0]] + Memories()[1..];
      }
    }

    /** The image an accepted form is saved with: a newly chosen file wins; when editing without one,
        the entry's original image is kept; a new entry without a file has none. */
    function SubmittedImage(file: Option<string>): (image: Option<string>)
      reads this
      ensures file.Some? ==> image == file
      ensures file.None? && Editing() ==> image == Truthy(editingOriginalImage)
      ensures file.None? && !Editing() ==> image == None
    {
      if file.Some? then file else if Editing() then Truthy(editingOriginalImage) else None
    }

    /** The form's submit handler. `file` is the data URL read from a chosen image file (`None` when no
        file was chosen); `newId` and `createdAt` are what `Date.now()` and `new Date()` would give. */
    method Submit(form: FormFields, file: Option<string>, newId: string, createdAt: string)
      returns (errors: FormErrors)
      modifies this
      ensures !Acceptable(form.title, form.date, form.description) ==> unchanged(this) && errors != NoErrors
      ensures Acceptable(form.title, form.date, form.description) ==> errors == NoErrors
      ensures Acceptable(form.title, form.date, form.description) && old(Editing()) ==>
        var ed := EditOf(form, old(SubmittedImage(file)));
        var i := IndexOfId(old(Memories()), old(editingId).value);
        && (i == -1 ==> unchanged(this))
        && (i != -1 ==>
              && storage == Some(Updated(old(Memories()), old(editingId).value, ed))
              && editingId == None && editingOriginalImage == None && showFavoritesOnly == old(showFavoritesOnly))
      ensures Acceptable(form.title, form.date, form.description) && !old(Editing()) ==>
        && storage == Some([Entry(newId, Trim(form.title), form.date, Trim(form.description), file,
                                  ParseTags(form.tags), false, createdAt)] + old(Memories()))
        && editingId == None && editingOriginalImage == None && showFavoritesOnly == old(showFavoritesOnly)
    {
      var ok;
      ok, errors := ValidateForm(form.title, form.date, form.description);
      if !ok {
        return;
      }
      var image := SubmittedImage(file);
      Finish(EditOf(form, image), newId, createdAt);
    }

    /** The import handler, once the file's text has been parsed: `failed` is the alert. */
    method Import(payload: Payload, replace: bool) returns (failed: bool)
      modifies this
      ensures failed <==> !payload.EntryArray?
      ensures failed ==> unchanged(this)
      ensures !failed ==> storage == Imported(old(Memories()), payload, replace)
      ensures editingId == old(editingId) && editingOriginalImage == old(editingOriginalImage)
      ensures showFavoritesOnly == old(showFavoritesOnly)
    {
      match payload {
        case EntryArray(imported) =>
          failed := false;
          if replace {
            storage := Some(imported);
          } else {
            var current := Memories();
            storage := Some(imported + current);
          }
        case _ =>
          failed := true;
      }
    }

    /** The favourites button. */
    method ToggleFavoritesFilter()
      modifies this`showFavoritesOnly
      ensures showFavoritesOnly == !old(showFavoritesOnly)
    {
      showFavoritesOnly := !showFavoritesOnly;
    }

    /** The entries `renderMemories` draws for the current search text. */
    function Rendered(rawQuery: string): (r: seq<Entry>)
      reads this
      ensures IsSubsequence(r, Memories())
      ensures forall k :: 0 <= k < |r| ==> Shown(r[k], NormalizeQuery(rawQuery), showFavoritesOnly)
      ensures forall e: Entry ::
        multiset(r)[e] == if Shown(e, NormalizeQuery(rawQuery), showFavoritesOnly) then multiset(Memories())[e] else 0
    {
      Visible(Memories(), rawQuery, showFavoritesOnly)
    }
  }
}
