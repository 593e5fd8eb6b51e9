/**
 * The tag field of the memory form: `tagsInput ? tagsInput.split(',').map(t => t.trim()).filter(Boolean) : []`
 * on the trimmed input, and its inverse direction, the `tags.join(', ')` that fills the field when an
 * entry is opened for editing.
 */
module Tags {
  import opened Text
  import opened Seqs

  /** What a parsed tag looks like: non-empty, trimmed, without a comma. */
  predicate IsTag(t: string)
  {
    t != "" && Trimmed(t) && ',' !in t
  }

  /** `.map(t => t.trim())` */
  function TrimAll(ps: seq<string>): seq<string>
  {
    seq(|ps|, k requires 0 <= k < |ps| => Trim(ps[k]))
  }

  /** Trimming comma-free pieces leaves either nothing or a tag. */
  lemma PiecesTrimToTags(pieces: seq<string>)
    requires forall k :: 0 <= k < |pieces| ==> ',' !in pieces[k]
    ensures forall t :: t in TrimAll(pieces) && t != "" ==> IsTag(t)
  {
    forall t | t in TrimAll(pieces) && t != ""
      ensures IsTag(t)
    {
      var k :| 0 <= k < |pieces| && TrimAll(pieces)[k] == t;
      assert ',' !in pieces[k];
    }
  }

  function ParseTags(raw: string): (tags: seq<string>)
    ensures forall k :: 0 <= k < |tags| ==> IsTag(tags[k])
    ensures Trim(raw) == "" ==> tags == []
  {
    var input := Trim(raw);
    if input == "" then [] else TagsOf(input)
  }

  /** The pieces between commas, trimmed, without the empty ones. */
  function TagsOf(input: string): (tags: seq<string>)
    ensures forall k :: 0 <= k < |tags| ==> IsTag(tags[k])
  {
    var pieces := Split(input, ',');
    var r := Filter(TrimAll(pieces), t => t != "");
    KeptAreTags(pieces, r);
    r
  }

  lemma KeptAreTags(pieces: seq<string>, r: seq<string>)
    requires forall k :: 0 <= k < |pieces| ==> ',' !in pieces[k]
    requires forall x :: multiset(r)[x] == if x != "" then multiset(TrimAll(pieces))[x] else 0
    ensures forall k :: 0 <= k < |r| ==> IsTag(r[k])
  {
    PiecesTrimToTags(pieces);
    forall k | 0 <= k < |r|
      ensures IsTag(r[k])
    {
      assert r[k] in multiset(r);
      assert r[k] != "" && r[k] in multiset(TrimAll(pieces));
    }
  }

  /** The text the edit form shows for an entry's tags. */
  function TagsField(tags: seq<string>): string
  {
    Join(tags, ", ")
  }

  /** Every tag can be found in the field. */
  lemma TagsFieldContains(tags: seq<string>)
    ensures forall k :: 0 <= k < |tags| ==> Contains(TagsField(tags), tags[k])
  {
    JoinContains(tags, ", ");
  }

  lemma {:induction false} SplitNoSeparator(s: string, sep: char)
    requires sep !in s
    ensures Split(s, sep) == [s]
  {
    if s != [] {
      assert s[0] != sep && sep !in s[1..];
      SplitNoSeparator(s[1..], sep);
      assert [s[0]] + s[1..] == s;
    }
  }

  lemma {:induction false} SplitAfter(a: string, b: string, sep: char)
    requires sep !in a
    ensures Split(a + [sep] + b, sep) == [a] + Split(b, sep)
  {
    if a == [] {
      assert ([sep] + b)[1..] == b;
      assert a + [sep] + b == [sep] + b;
    } else {
      SplitAfter(a[1..], b, sep);
      assert (a + [sep] + b)[1..] == a[1..] + [sep] + b;
      assert [a[0]] + a[1..] == a;
    }
  }

  /** Each tag after the first, with the space `join(', ')` leaves in front of it. */
  function Spaced(ts: seq<string>): seq<string>
  {
    seq(|ts|, k requires 0 <= k < |ts| => " " + ts[k])
  }

  lemma {:induction false} SplitJoin(pre: string, ts: seq<string>)
    requires ',' !in pre && |ts| >= 1
    requires forall k :: 0 <= k < |ts| ==> IsTag(ts[k])
    ensures Split(pre + Join(ts, ", "), ',') == [pre + ts[0]] + Spaced(ts[1..])
    decreases |ts|
  {
    if |ts| == 1 {
      SplitNoSeparator(pre + ts[0], ',');
    } else {
      var rest := Join(ts[1..], ", ");
      assert pre + Join(ts, ", ") == (pre + ts[0]) + [','] + (" " + rest);
      SplitAfter(pre + ts[0], " " + rest, ',');
      SplitJoin(" ", ts[1..]);
      assert Spaced(ts[1..]) == [" " + ts[1]] + Spaced(ts[2..]);
    }
  }

  lemma {:induction false} JoinEnds(ts: seq<string>, d: string)
    requires |ts| >= 1 && forall k :: 0 <= k < |ts| ==> ts[k] != ""
    ensures var j := Join(ts, d); |j| > 0 && j[0] == ts[0][0] && j[|j| - 1] == ts[|ts| - 1][|ts[|ts| - 1]| - 1]
    decreases |ts|
  {
    if |ts| > 1 {
      JoinEnds(ts[1..], d);
    }
  }

  lemma TrimAfterSpace(t: string)
    requires IsTag(t)
    ensures Trim(" " + t) == t
  {
    assert AllSpace(" ") by {
      assert " "[0] == ' ';
    }
    TrimAfterSpaces(" ", t);
  }

  lemma TrimAllPieces(tags: seq<string>)
    requires |tags| >= 1 && forall k :: 0 <= k < |tags| ==> IsTag(tags[k])
    ensures TrimAll([tags[0]] + Spaced(tags[1..])) == tags
  {
    var pieces := [tags[0]] + Spaced(tags[1..]);
    forall k | 0 <= k < |tags|
      ensures TrimAll(pieces)[k] == tags[k]
    {
      if k > 0 {
        assert pieces[k] == " " + tags[k];
        TrimAfterSpace(tags[k]);
      }
    }
  }

  /** The field filled from well-formed tags is non-empty and has no whitespace at either end. */
  lemma FieldTrimmed(tags: seq<string>)
    requires |tags| >= 1 && forall k :: 0 <= k < |tags| ==> IsTag(tags[k])
    ensures TagsField(tags) != "" && Trimmed(TagsField(tags))
  {
    JoinEnds(tags, ", ");
  }

  /** Filling the field from well-formed tags and parsing it again gives the same tags. */
  lemma {:induction false} TagsRoundTrip(tags: seq<string>)
    requires forall k :: 0 <= k < |tags| ==> IsTag(tags[k])
    ensures ParseTags(TagsField(tags)) == tags
  {
    if tags != [] {
      var j := Join(tags, ", ");
      FieldSplits(tags);
      var pieces := Split(j, ',');
      FieldTrimmed(tags);
      assert Trim(j) == j;
      TrimAllPieces(tags);
      FilterKeepsAll(tags, t => t != "");
      assert ParseTags(j) == Filter(TrimAll(pieces), t => t != "");
    }
  }

  /** Splitting the filled field at its commas gives the tags, each after the first with a space
      in front. */
  lemma FieldSplits(tags: seq<string>)
    requires |tags| >= 1 && forall k :: 0 <= k < |tags| ==> IsTag(tags[k])
    ensures Split(TagsField(tags), ',') == [tags[0]] + Spaced(tags[1..])
  {
    var j := Join(tags, ", ");
    SplitJoin("", tags);
    assert "" + j == j && "" + tags[0] == tags[0];
  }

  /** Opening an entry for editing and saving without touching the tag field keeps its tags. */
  lemma ParseTagsIdempotent(raw: string)
    ensures ParseTags(TagsField(ParseTags(raw))) == ParseTags(raw)
  {
    TagsRoundTrip(ParseTags(raw));
  }
}
