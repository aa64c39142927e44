/**
 * The pure and step-by-step logic of the cut editor
 * (src/components/VideoCutEditor.tsx): the reducer that toggles a category
 * tag in the comma-separated category list, the test that shows a tag as
 * selected, and the clip URL that follows the trim start.
 */
module VideoCutEditor {
  import opened Strings
  import opened FormatTime

  // ---------------------------------------------------------------------
  // The order `Array.prototype.sort` uses on strings

  /**
   * `a` sorts at or before `b` when compared character by character, a
   * proper prefix first; this is the default comparison of `sort()`.
   */
  predicate Below(a: string, b: string)
    decreases |a|
  {
    |a| == 0 || (|b| > 0 && (a[0] < b[0] || (a[0] == b[0] && Below(a[1..], b[1..]))))
  }

  lemma {:induction false} BelowReflexive(a: string)
    ensures Below(a, a)
    decreases |a|
  {
    if |a| > 0 { BelowReflexive(a[1..]); }
  }

  lemma {:induction false} BelowAntisymmetric(a: string, b: string)
    requires Below(a, b) && Below(b, a)
    ensures a == b
    decreases |a|
  {
    if |a| > 0 {
      BelowAntisymmetric(a[1..], b[1..]);
      assert a == [a[0]] + a[1..] && b == [b[0]] + b[1..];
    }
  }

  lemma {:induction false} BelowTransitive(a: string, b: string, c: string)
    requires Below(a, b) && Below(b, c)
    ensures Below(a, c)
    decreases |a|
  {
    if |a| > 0 && a[0] == b[0] && b[0] == c[0] {
      BelowTransitive(a[1..], b[1..], c[1..]);
    }
  }

  lemma {:induction false} BelowTotal(a: string, b: string)
    ensures Below(a, b) || Below(b, a)
    decreases |a|
  {
    if |a| > 0 && |b| > 0 && a[0] == b[0] {
      BelowTotal(a[1..], b[1..]);
    }
  }

  /** Every element sorts at or before every later one. */
  predicate Sorted(s: seq<string>)
  {
    forall i, j :: 0 <= i < j < |s| ==> Below(s[i], s[j])
  }

  // ---------------------------------------------------------------------
  // A reference sort: insertion into a sorted list

  /** `x` put into the sorted list `s` just before the first element above it. */
  function Insert(s: seq<string>, x: string): seq<string>
  {
    if |s| == 0 then [x]
    else if Below(x, s[0]) then [x] + s
    else [s[0]] + Insert(s[1..], x)
  }

  /** The elements of `s` in ascending order. */
  function SortedList(s: seq<string>): seq<string>
  {
    if |s| == 0 then [] else Insert(SortedList(s[..|s| - 1]), s[|s| - 1])
  }

  lemma SortedTail(s: seq<string>)
    requires |s| > 0 && Sorted(s)
    ensures Sorted(s[1..])
  {
    forall i, j | 0 <= i < j < |s| - 1 ensures Below(s[1..][i], s[1..][j]) {
      assert s[1..][i] == s[i + 1] && s[1..][j] == s[j + 1];
    }
  }

  /** Inserting adds exactly the one element. */
  lemma {:induction false} InsertAddsOne(s: seq<string>, x: string)
    ensures multiset(Insert(s, x)) == multiset(s) + multiset{x}
    decreases |s|
  {
    if |s| > 0 {
      assert s == [s[0]] + s[1..];
      if !Below(x, s[0]) {
        InsertAddsOne(s[1..], x);
      }
    }
  }

  /** Inserting into a sorted list keeps it sorted. */
  lemma {:induction false} InsertKeepsSorted(s: seq<string>, x: string)
    requires Sorted(s)
    ensures Sorted(Insert(s, x))
    decreases |s|
  {
    if |s| > 0 {
      if Below(x, s[0]) {
        var r := [x] + s;
        forall i, j | 0 <= i < j < |r| ensures Below(r[i], r[j]) {
          if i == 0 && j > 1 {
            assert r[j] == s[j - 1];
            BelowTransitive(x, s[0], r[j]);
          }
        }
      } else {
        BelowTotal(x, s[0]);
        SortedTail(s);
        InsertKeepsSorted(s[1..], x);
        InsertAddsOne(s[1..], x);
        var t := Insert(s[1..], x);
        HeadBelowInserted(s, x, t);
        var r := [s[0]] + t;
        forall i, j | 0 <= i < j < |r| ensures Below(r[i], r[j]) {
          if i > 0 { assert r[i] == t[i - 1] && r[j] == t[j - 1]; }
          else { assert r[j] == t[j - 1]; }
        }
      }
    }
  }

  lemma HeadBelowInserted(s: seq<string>, x: string, t: seq<string>)
    requires |s| > 0 && Sorted(s) && Below(s[0], x)
    requires multiset(t) == multiset(s[1..]) + multiset{x}
    ensures forall j :: 0 <= j < |t| ==> Below(s[0], t[j])
  {
    forall j | 0 <= j < |t| ensures Below(s[0], t[j]) {
      assert t[j] in multiset(t);
      if t[j] != x {
        assert t[j] in multiset(s[1..]);
        var k :| 0 <= k < |s[1..]| && s[1..][k] == t[j];
        assert s[k + 1] == t[j];
      }
    }
  }

  /** The reference sort gives a sorted permutation of its input. */
  lemma {:induction false} SortedListIsSortedPermutation(s: seq<string>)
    ensures Sorted(SortedList(s))
    ensures multiset(SortedList(s)) == multiset(s)
    decreases |s|
  {
    if |s| > 0 {
      var init := s[..|s| - 1];
      SortedListIsSortedPermutation(init);
      InsertKeepsSorted(SortedList(init), s[|s| - 1]);
      InsertAddsOne(SortedList(init), s[|s| - 1]);
      assert s == init + [s[|s| - 1]];
    }
  }

  /** Two sorted lists holding the same elements are the same list. */
  lemma {:induction false} SortedPermutationsAgree(a: seq<string>, b: seq<string>)
    requires Sorted(a) && Sorted(b)
    requires multiset(a) == multiset(b)
    ensures a == b
    decreases |a|
  {
    if |a| > 0 {
      SortedSameHead(a, b);
      SameTails(a, b);
      SortedTail(a);
      SortedTail(b);
      SortedPermutationsAgree(a[1..], b[1..]);
      assert a == [a[0]] + a[1..] && b == [b[0]] + b[1..];
    } else {
      assert |b| == |multiset(b)| == 0;
    }
  }

  /** Two sorted permutations of a non-empty list start with the same element. */
  lemma SortedSameHead(a: seq<string>, b: seq<string>)
    requires Sorted(a) && Sorted(b) && |a| > 0
    requires multiset(a) == multiset(b)
    ensures |b| > 0 && a[0] == b[0]
  {
    assert |b| == |multiset(b)| == |a|;
    assert a[0] in multiset(b) && b[0] in multiset(a);
    var i :| 0 <= i < |b| && b[i] == a[0];
    var j :| 0 <= j < |a| && a[j] == b[0];
    BelowReflexive(a[0]);
    BelowReflexive(b[0]);
    assert Below(b[0], a[0]) by { if i > 0 { assert Below(b[0], b[i]); } }
    assert Below(a[0], b[0]) by { if j > 0 { assert Below(a[0], a[j]); } }
    BelowAntisymmetric(a[0], b[0]);
  }

  /** Removing the same first element from two permutations leaves permutations. */
  lemma SameTails(a: seq<string>, b: seq<string>)
    requires |a| > 0 && |b| > 0 && a[0] == b[0]
    requires multiset(a) == multiset(b)
    ensures multiset(a[1..]) == multiset(b[1..])
  {
    assert a == [a[0]] + a[1..] && b == [b[0]] + b[1..];
    assert multiset(a[1..]) == multiset(a) - multiset{a[0]};
    assert multiset(b[1..]) == multiset(b) - multiset{b[0]};
  }

  /** Sorting in place: insertion sort by adjacent swaps, as `sort()` leaves the array. */
  method SortInPlace(a: array<string>)
    modifies a
    ensures Sorted(a[..])
    ensures multiset(a[..]) == multiset(old(a[..]))
  {
    var i := 0;
    while i < a.Length
      invariant 0 <= i <= a.Length
      invariant forall k, l :: 0 <= k < l < i ==> Below(a[k], a[l])
      invariant multiset(a[..]) == multiset(old(a[..]))
    {
      var j := i;
      while j > 0 && !Below(a[j - 1], a[j])
        invariant 0 <= j <= i < a.Length
        invariant forall k, l :: 0 <= k < l <= i && l != j ==> Below(a[k], a[l])
        invariant multiset(a[..]) == multiset(old(a[..]))
      {
        BelowTotal(a[j - 1], a[j]);
        ghost var before := a[..];
        a[j - 1], a[j] := a[j], a[j - 1];
        assert a[..] == before[j - 1 := before[j]][j := before[j - 1]];
        j := j - 1;
      }
      if j > 0 {
        forall k | 0 <= k < j - 1 ensures Below(a[k], a[j]) {
          BelowTransitive(a[k], a[j - 1], a[j]);
        }
      }
      i := i + 1;
    }
  }

  // ---------------------------------------------------------------------
  // The category list

  /** The parts other than `tag`, in order (the reducer's removal filter). */
  function Without(parts: seq<string>, tag: string): seq<string>
  {
    if |parts| == 0 then []
    else (if parts[0] != tag then [parts[0]] else []) + Without(parts[1..], tag)
  }

  /** The category list a state string stands for: its comma-separated entries, empty ones dropped. */
  function Entries(state: string): seq<string>
  {
    Without(Split(state, ','), "")
  }

  /** The state the category buttons start from. */
  const InitialCategory: string := "emotions"

  /** The tags offered as buttons, in the order they are shown. */
  const ReservedCategories: seq<string> :=
    [ "collab", "comment", "damage", "emotions", "english", "game", "intonation", "kawaii",
      "lucky", "maikka", "meigen", "meme", "miteruyo", "outa", "se", "sensitive", "sokuochi",
      "supacha", "tira", "waraigoe" ]

  datatype Action = Edit(category: string) | Set(category: string)

  /**
   * What a `set` action makes of the state: a tag already in the list is
   * removed wherever it occurs and the rest keep their order; an absent tag
   * is appended and the whole list sorted.
   */
  function Toggle(state: string, tag: string): string
  {
    var entries := Entries(state);
    if tag in entries then Join(Without(entries, tag), ',')
    else Join(SortedList(entries + [tag]), ',')
  }

  /**
   * `categoryListReducer`: an `edit` action replaces the state by its text;
   * a `set` action toggles its tag, pushing onto the list and sorting it in
   * place when the tag is new.
   */
  method CategoryListReducer(state: string, action: Action) returns (next: string)
    ensures action.Edit? ==> next == action.category
    ensures action.Set? ==> next == Toggle(state, action.category)
  {
    match action
    case Edit(category) =>
      next := category;
    case Set(category) =>
      var categoryList := Entries(state);
      if category in categoryList {
        next := Join(Without(categoryList, category), ',');
      } else {
        var n := |categoryList|;
        var list := new string[n + 1](i requires 0 <= i <= n => if i < n then categoryList[i] else category);
        assert list[..] == categoryList + [category];
        SortInPlace(list);
        SortedListIsSortedPermutation(categoryList + [category]);
        SortedPermutationsAgree(list[..], SortedList(categoryList + [category]));
        next := Join(list[..], ',');
      }
  }

  /** Whether the tag's button shows as selected: the tag is one of the comma-separated parts. */
  predicate IsSelected(category: string, tag: string)
  {
    tag in Split(category, ',')
  }

  // ---------------------------------------------------------------------
  // Properties of the filter

  /** The filter drops every `tag` and keeps every other part as often as it occurs. */
  lemma {:induction false} WithoutCounts(parts: seq<string>, tag: string)
    ensures multiset(Without(parts, tag)) == multiset(parts)[tag := 0]
    decreases |parts|
  {
    if |parts| > 0 {
      WithoutCounts(parts[1..], tag);
      assert parts == [parts[0]] + parts[1..];
    }
  }

  lemma WithoutDropsTag(parts: seq<string>, tag: string)
    ensures tag !in Without(parts, tag)
  {
    WithoutCounts(parts, tag);
    assert multiset(Without(parts, tag))[tag] == 0;
  }

  /** A list without the tag passes the filter unchanged. */
  lemma {:induction false} WithoutAbsent(parts: seq<string>, tag: string)
    requires tag !in parts
    ensures Without(parts, tag) == parts
    decreases |parts|
  {
    if |parts| > 0 {
      WithoutAbsent(parts[1..], tag);
      assert parts == [parts[0]] + parts[1..];
    }
  }

  /** Every part the filter keeps comes from the list. */
  lemma {:induction false} WithoutSubset(parts: seq<string>, tag: string)
    ensures forall x :: x in Without(parts, tag) ==> x in parts && x != tag
    decreases |parts|
  {
    if |parts| > 0 {
      WithoutSubset(parts[1..], tag);
    }
  }

  /** Filtering a sorted list leaves it sorted. */
  lemma {:induction false} WithoutKeepsSorted(parts: seq<string>, tag: string)
    requires Sorted(parts)
    ensures Sorted(Without(parts, tag))
    decreases |parts|
  {
    if |parts| > 0 {
      SortedTail(parts);
      WithoutKeepsSorted(parts[1..], tag);
      var rest := Without(parts[1..], tag);
      if parts[0] != tag {
        var r := [parts[0]] + rest;
        WithoutSubset(parts[1..], tag);
        forall i, j | 0 <= i < j < |r| ensures Below(r[i], r[j]) {
          if i == 0 {
            assert r[j] in parts[1..];
            var k :| 0 <= k < |parts[1..]| && parts[1..][k] == r[j];
            assert parts[k + 1] == r[j];
          } else {
            assert r[i] == rest[i - 1] && r[j] == rest[j - 1];
          }
        }
      }
    }
  }

  // ---------------------------------------------------------------------
  // Properties of the category list

  /** Every entry is non-empty and holds no comma. */
  predicate Clean(parts: seq<string>)
  {
    forall i :: 0 <= i < |parts| ==> parts[i] != "" && ',' !in parts[i]
  }

  lemma EntriesAreClean(state: string)
    ensures Clean(Entries(state))
  {
    SplitHasNoSeparator(state, ',');
    WithoutSubset(Split(state, ','), "");
    forall i | 0 <= i < |Entries(state)| ensures Entries(state)[i] != "" && ',' !in Entries(state)[i] {
      assert Entries(state)[i] in Entries(state);
    }
  }

  /** Clean entries joined with commas read back as the same entries. */
  lemma EntriesOfJoin(parts: seq<string>)
    requires Clean(parts)
    ensures Entries(Join(parts, ',')) == parts
  {
    if parts == [] {
      assert Split("", ',') == [""];
    } else {
      SplitJoin(parts, ',');
      WithoutAbsent(parts, "");
    }
  }

  /** For a non-empty tag, being selected means being one of the entries. */
  lemma SelectedIsEntry(category: string, tag: string)
    requires tag != ""
    ensures IsSelected(category, tag) <==> tag in Entries(category)
  {
    WithoutSubset(Split(category, ','), "");
    WithoutCounts(Split(category, ','), "");
    if tag in Split(category, ',') {
      assert multiset(Entries(category))[tag] == multiset(Split(category, ','))[tag] > 0;
    }
  }

  /** A clean tag: one that can stand as an entry of its own. */
  predicate CleanTag(tag: string)
  {
    tag != "" && ',' !in tag
  }

  lemma ReservedTagsAreClean()
    ensures forall i :: 0 <= i < |ReservedCategories| ==> CleanTag(ReservedCategories[i])
  {
  }

  /** The `emotions` button starts out selected. */
  lemma InitiallyEmotions()
    ensures IsSelected(InitialCategory, "emotions")
  {
    SplitWithoutSeparator(InitialCategory, ',');
  }

  /** Removing a present tag keeps the other entries in their original order. */
  lemma ToggleRemoves(state: string, tag: string)
    requires tag in Entries(state)
    ensures Entries(Toggle(state, tag)) == Without(Entries(state), tag)
    ensures tag !in Entries(Toggle(state, tag))
  {
    var entries := Entries(state);
    EntriesAreClean(state);
    WithoutSubset(entries, tag);
    var kept := Without(entries, tag);
    forall i | 0 <= i < |kept| ensures kept[i] != "" && ',' !in kept[i] {
      assert kept[i] in kept;
    }
    EntriesOfJoin(kept);
    WithoutDropsTag(entries, tag);
  }

  /** Adding an absent clean tag gives the old entries and the tag, sorted. */
  lemma ToggleAdds(state: string, tag: string)
    requires CleanTag(tag) && tag !in Entries(state)
    ensures Sorted(Entries(Toggle(state, tag)))
    ensures multiset(Entries(Toggle(state, tag))) == multiset(Entries(state)) + multiset{tag}
  {
    var entries := Entries(state);
    var sorted := SortedList(entries + [tag]);
    SortedListIsSortedPermutation(entries + [tag]);
    SortedIsClean(state, tag);
    EntriesOfJoin(sorted);
  }

  /** The sorted list of clean entries and a clean tag is clean. */
  lemma SortedIsClean(state: string, tag: string)
    requires CleanTag(tag)
    ensures Clean(SortedList(Entries(state) + [tag]))
  {
    var all := Entries(state) + [tag];
    EntriesAreClean(state);
    SortedListIsSortedPermutation(all);
    var sorted := SortedList(all);
    forall i | 0 <= i < |sorted| ensures sorted[i] != "" && ',' !in sorted[i] {
      assert sorted[i] in multiset(all);
      var k :| 0 <= k < |all| && all[k] == sorted[i];
    }
  }

  /** A `set` of a clean tag flips whether the tag is selected. */
  lemma ToggleFlips(state: string, tag: string)
    requires CleanTag(tag)
    ensures IsSelected(Toggle(state, tag), tag) <==> !IsSelected(state, tag)
  {
    SelectedIsEntry(state, tag);
    SelectedIsEntry(Toggle(state, tag), tag);
    if tag in Entries(state) {
      ToggleRemoves(state, tag);
    } else {
      ToggleAdds(state, tag);
      assert tag in multiset(Entries(Toggle(state, tag)));
    }
  }

  /** A `set` neither adds nor removes any entry other than the toggled tag. */
  lemma ToggleKeepsOthers(state: string, tag: string, other: string)
    requires CleanTag(tag) && other != tag
    ensures multiset(Entries(Toggle(state, tag)))[other] == multiset(Entries(state))[other]
  {
    if tag in Entries(state) {
      ToggleRemoves(state, tag);
      WithoutCounts(Entries(state), tag);
    } else {
      ToggleAdds(state, tag);
    }
  }

  /** The precondition of `ToggleTwice`: the state is its own sorted, clean list. */
  predicate Canonical(state: string, tag: string)
  {
    && Join(Entries(state), ',') == state
    && Sorted(Entries(state)) && multiset(Entries(state))[tag] <= 1
  }

  /**
   * On a state that is already its sorted entries joined by commas, with the
   * tag at most once, setting the same tag twice gives the state back.
   */
  lemma ToggleTwice(state: string, tag: string)
    requires CleanTag(tag) && Canonical(state, tag)
    ensures Toggle(Toggle(state, tag), tag) == state
  {
    if tag in Entries(state) {
      ToggleTwicePresent(state, tag);
    } else {
      ToggleTwiceAbsent(state, tag);
    }
  }

  lemma ToggleTwicePresent(state: string, tag: string)
    requires CleanTag(tag) && Canonical(state, tag) && tag in Entries(state)
    ensures Toggle(Toggle(state, tag), tag) == state
  {
    var entries := Entries(state);
    var once := Toggle(state, tag);
    ToggleRemoves(state, tag);
    var kept := Without(entries, tag);
    assert Entries(once) == kept;
    assert tag !in kept;
    assert Toggle(once, tag) == Join(SortedList(kept + [tag]), ',');
    WithoutCounts(entries, tag);
    WithoutKeepsSorted(entries, tag);
    SortedListIsSortedPermutation(kept + [tag]);
    assert multiset(entries)[tag] == 1 by { assert tag in multiset(entries); }
    assert multiset(kept + [tag]) == multiset(entries);
    SortedPermutationsAgree(SortedList(kept + [tag]), entries);
  }

  lemma ToggleTwiceAbsent(state: string, tag: string)
    requires CleanTag(tag) && Canonical(state, tag) && tag !in Entries(state)
    ensures Toggle(Toggle(state, tag), tag) == state
  {
    var entries := Entries(state);
    var once := Toggle(state, tag);
    ToggleAdds(state, tag);
    var sorted := Entries(once);
    assert tag in sorted by { assert tag in multiset(sorted); }
    assert Toggle(once, tag) == Join(Without(sorted, tag), ',');
    WithoutCounts(sorted, tag);
    WithoutKeepsSorted(sorted, tag);
    assert multiset(entries)[tag] == 0;
    assert multiset(Without(sorted, tag)) == multiset(entries);
    SortedPermutationsAgree(Without(sorted, tag), entries);
  }

  // ---------------------------------------------------------------------
  // The automatic clip URL

  const WatchUrl: string := "https://www.youtube.com/watch?v="

  /** The watch URL of the video at the whole second the trim starts on. */
  function ClipUrl(videoId: string, startTime: real): string
  {
    WatchUrl + videoId + "&t=" + IntToString(startTime.Floor)
  }

  /**
   * One render's update of the clip URL: with automatic URLs on, the new
   * URL when it differs from the current one, and nothing to set otherwise.
   */
  function ClipUrlUpdate(isAutoClipUrl: bool, clipUrl: string, videoId: string, startTime: real): (r: Option<string>)
    ensures r.Some? <==> isAutoClipUrl && clipUrl != ClipUrl(videoId, startTime)
    ensures r.Some? ==> r.value == ClipUrl(videoId, startTime)
  {
    if isAutoClipUrl then
      var videoWithTimestamp := ClipUrl(videoId, startTime);
      if clipUrl != videoWithTimestamp then Some(videoWithTimestamp) else None
    else None
  }

  /** Once the update is applied, the next render has nothing more to set. */
  lemma ClipUrlSettles(isAutoClipUrl: bool, clipUrl: string, videoId: string, startTime: real)
    ensures var u := ClipUrlUpdate(isAutoClipUrl, clipUrl, videoId, startTime);
      u.Some? ==> ClipUrlUpdate(isAutoClipUrl, u.value, videoId, startTime) == None
  {
  }

  /**
   * For a video id without `&`, the URL splits at `&` into the watch
   * address of the video and the `t=` parameter, whose digits read back as
   * the whole second of a non-negative start.
   */
  lemma ClipUrlReadsBack(videoId: string, startTime: real)
    requires '&' !in videoId
    ensures var stamp := IntToString(startTime.Floor);
      && Split(ClipUrl(videoId, startTime), '&') == [WatchUrl + videoId, "t=" + stamp]
      && (startTime >= 0.0 ==> AllDigits(stamp) && ParseNat(stamp) == startTime.Floor)
  {
    var stamp := IntToString(startTime.Floor);
    var head := WatchUrl + videoId;
    assert '&' !in WatchUrl;
    assert '&' !in head;
    assert '&' !in "t=" + stamp;
    assert ClipUrl(videoId, startTime) == head + ['&'] + ("t=" + stamp);
    SplitAfterPrefix(head, "t=" + stamp, '&');
    SplitWithoutSeparator("t=" + stamp, '&');
    if startTime >= 0.0 {
      ParseNatToString(startTime.Floor);
    }
  }
}
