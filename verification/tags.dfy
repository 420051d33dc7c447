/**
 * The selection state and the label text of the waste-tagging screen
 * (`TagsScreen` and `TagItem`): the view model's mutable list of selected
 * tags, the click that toggles a tag in it, the summary shown above the
 * search field, and the two-line rendering of a tag's name.
 */
module Tags {
  import opened Wrappers
  import opened KotlinText

  /** A taggable waste category: a display name and a drawable resource id. */
  datatype Tag = Tag(name: string, image: int)

  /** The label shown when more than one tag is selected. */
  const MixedWaste: string := "Mixed Waste"

  ghost predicate NoDuplicates(tags: seq<Tag>) {
    forall i, j :: 0 <= i < j < |tags| ==> tags[i] != tags[j]
  }

  /** `isSelected` of a `TagItem`: the tag is a member of the selected list. */
  predicate IsSelected(tags: seq<Tag>, tag: Tag): (r: bool)
    ensures r <==> exists i :: 0 <= i < |tags| && tags[i] == tag
  {
    tag in tags
  }

  /**
   * The list after a click on `tag`: the first equal entry is removed when
   * the tag is selected, otherwise the tag is appended.
   */
  function Toggled(tags: seq<Tag>, tag: Tag): (r: seq<Tag>)
    ensures tag in tags ==> exists i :: 0 <= i < |tags| && tags[i] == tag && tag !in tags[..i] &&
                                        r == tags[..i] + tags[i + 1..]
    ensures tag !in tags ==> r == tags + [tag]
    ensures multiset(r) == if tag in tags then multiset(tags) - multiset{tag}
                           else multiset(tags) + multiset{tag}
  {
    if tag in tags then RemoveFirst(tags, tag) else tags + [tag]
  }

  /** The view model's `tagsList`, as the tag screen changes it. */
  class TagSelection {
    var tagsList: seq<Tag>

    constructor ()
      ensures tagsList == []
    {
      tagsList := [];
    }

    /** The `onClick` handler of a tag item. */
    method Toggle(tag: Tag)
      modifies this
      ensures tagsList == Toggled(old(tagsList), tag)
      ensures NoDuplicates(old(tagsList)) ==> NoDuplicates(tagsList)
      ensures NoDuplicates(old(tagsList)) ==>
                IsSelected(tagsList, tag) == !IsSelected(old(tagsList), tag)
    {
      ToggledKeepsNoDuplicates(tagsList, tag);
      if NoDuplicates(tagsList) {
        ToggleFlipsSelection(tagsList, tag);
      }
      if tag in tagsList {
        tagsList := RemoveFirst(tagsList, tag);
      } else {
        tagsList := tagsList + [tag];
      }
    }
  }

  /** A click changes the length by exactly one. */
  lemma ToggledLength(tags: seq<Tag>, tag: Tag)
    ensures |Toggled(tags, tag)| == if tag in tags then |tags| - 1 else |tags| + 1
  {
    var r := Toggled(tags, tag);
    assert |multiset(r)| == |r| && |multiset(tags)| == |tags|;
    if tag in tags {
      assert multiset(tags) == multiset(r) + multiset{tag};
    }
  }

  /** An absent tag is appended at the end; the rest of the list is untouched. */
  lemma ToggledAbsentAppends(tags: seq<Tag>, tag: Tag)
    requires tag !in tags
    ensures Toggled(tags, tag) == tags + [tag]
  {
  }

  /** A click on `tag` leaves every other tag where it was, in the same order. */
  lemma ToggledKeepsOthers(tags: seq<Tag>, tag: Tag)
    ensures Without(Toggled(tags, tag), tag) == Without(tags, tag)
  {
    if tag in tags {
      RemoveFirstKeepsOthers(tags, tag);
    } else {
      WithoutAppend(tags, [tag], tag);
      assert Without([tag], tag) == [];
    }
  }

  lemma MultisetNoDuplicates(tags: seq<Tag>, tag: Tag)
    requires NoDuplicates(tags)
    ensures multiset(tags)[tag] <= 1
  {
    if tags != [] {
      assert tags == [tags[0]] + tags[1..];
      MultisetNoDuplicates(tags[1..], tag);
      if tags[0] == tag {
        assert tag !in tags[1..];
      }
    }
  }

  lemma DropKeepsNoDuplicates(tags: seq<Tag>, i: nat)
    requires NoDuplicates(tags) && i < |tags|
    ensures NoDuplicates(tags[..i] + tags[i + 1..])
  {
    var r := tags[..i] + tags[i + 1..];
    forall p, q | 0 <= p < q < |r| ensures r[p] != r[q] {
      var p' := if p < i then p else p + 1;
      var q' := if q < i then q else q + 1;
      assert r[p] == tags[p'] && r[q] == tags[q'];
    }
  }

  /** A click never puts two equal tags in a list that had none. */
  lemma ToggledKeepsNoDuplicates(tags: seq<Tag>, tag: Tag)
    ensures NoDuplicates(tags) ==> NoDuplicates(Toggled(tags, tag))
  {
    if NoDuplicates(tags) {
      if tag in tags {
        var i := IndexOf(tags, tag);
        assert Toggled(tags, tag) == tags[..i] + tags[i + 1..];
        DropKeepsNoDuplicates(tags, i);
      } else {
        var r := tags + [tag];
        assert forall k :: 0 <= k < |tags| ==> r[k] == tags[k] != tag;
      }
    }
  }

  /** A click leaves the selection of every tag other than the clicked one as it was. */
  lemma ToggleKeepsOthersSelection(tags: seq<Tag>, tag: Tag, other: Tag)
    requires other != tag
    ensures IsSelected(Toggled(tags, tag), other) == IsSelected(tags, other)
  {
    var r := Toggled(tags, tag);
    assert multiset(r)[other] == multiset(tags)[other];
  }

  /** On a list without duplicates a click flips the clicked tag's selection. */
  lemma ToggleFlipsSelection(tags: seq<Tag>, tag: Tag)
    requires NoDuplicates(tags)
    ensures IsSelected(Toggled(tags, tag), tag) == !IsSelected(tags, tag)
  {
    MultisetNoDuplicates(tags, tag);
  }

  /** Clicking an unselected tag twice restores the exact list. */
  lemma ToggleTwiceAbsent(tags: seq<Tag>, tag: Tag)
    requires tag !in tags
    ensures Toggled(Toggled(tags, tag), tag) == tags
  {
    var once := tags + [tag];
    assert IndexOf(once, tag) == |tags| by {
      assert once[..|tags|] == tags;
    }
    assert once[..|tags|] == tags;
  }

  /**
   * Clicking a selected tag twice restores the members (as a multiset, so
   * also as a set) but moves the tag to the end of the list.
   */
  lemma ToggleTwicePresent(tags: seq<Tag>, tag: Tag)
    requires NoDuplicates(tags) && tag in tags
    ensures Toggled(Toggled(tags, tag), tag) == RemoveFirst(tags, tag) + [tag]
    ensures multiset(Toggled(Toggled(tags, tag), tag)) == multiset(tags)
  {
    ToggleFlipsSelection(tags, tag);
  }

  /** What the header shows next to the title. */
  datatype Summary = Hidden | Shown(icon: int, text: string)

  /**
   * The header summary: nothing for an empty list; otherwise the icon of
   * the first selected tag with "Mixed Waste" for several tags, or the
   * single tag's first word.
   */
  function SummaryOf(tags: seq<Tag>): (r: Summary)
    ensures r == Hidden <==> tags == []
    ensures r.Shown? ==> r.icon == tags[0].image
    ensures |tags| > 1 ==> r.text == MixedWaste
    ensures |tags| == 1 ==>
      var name := tags[0].name;
      ' ' !in r.text && r.text <= name &&
      (|r.text| < |name| ==> name[|r.text|] == ' ') &&
      (' ' !in name ==> r.text == name)
  {
    if |tags| == 0 then Hidden
    else Shown(tags[0].image, if |tags| > 1 then MixedWaste else SubstringBefore(tags[0].name, ' '))
  }

  /** The two text lines of a `TagItem`; the second only when there is one. */
  datatype NameLines = NameLines(first: string, second: Option<string>)

  /** Splits a tag's name at its first space. */
  function SplitName(name: string): (r: NameLines)
    ensures ' ' !in r.first
    ensures r.second.Some? <==> ' ' in name
    ensures r.second.Some? ==> r.first + " " + r.second.value == name
    ensures r.second.None? ==> r.first == name
  {
    NameLines(SubstringBefore(name, ' '),
              if ' ' in name then Some(SubstringAfter(name, ' ')) else None)
  }

  /** Joining the two lines with a space gives back the name. */
  function JoinLines(lines: NameLines): string {
    match lines.second
    case None => lines.first
    case Some(rest) => lines.first + " " + rest
  }

  /** Splitting a space-free first word joined by a space to the rest gives both back. */
  lemma {:induction false} SplitJoined(first: string, rest: string)
    requires ' ' !in first
    ensures SplitName(first + " " + rest) == NameLines(first, Some(rest))
  {
    var name := first + " " + rest;
    assert name[|first|] == ' ';
    assert name[..|first|] == first;
    var i := IndexOf(name, ' ');
    assert i == |first|;
    assert name[i + 1..] == rest;
  }

  /** Joining the two lines of a split gives back the name. */
  lemma JoinSplit(name: string)
    ensures JoinLines(SplitName(name)) == name
  {
  }

  /** The examples of a single selected tag and of two selected tags. */
  lemma SummaryExamples(plastic: int, glass: int)
    ensures SummaryOf([Tag("Plastic Bottle", plastic)]) == Shown(plastic, "Plastic")
    ensures SummaryOf([Tag("Plastic Bottle", plastic), Tag("Glass Jar", glass)]) == Shown(plastic, MixedWaste)
  {
    assert "Plastic Bottle" == "Plastic" + " " + "Bottle";
    SplitJoined("Plastic", "Bottle");
  }
}
