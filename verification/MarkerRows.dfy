/** What `Apply` and `ShownOf` do to an item's rows, as counts and as membership. */
module MarkerRows {
  import opened Wrappers
  import opened StoredMarkers
  import opened MarkerChapters

  // Counting ------------------------------------------------------------------------------------------------------

  lemma {:induction false} WithoutCount(rows: seq<ChapterInfo>, named: seq<ChapterInfo>, c: ChapterInfo)
    ensures multiset(Without(rows, named))[c] == if Listed(c, named) then 0 else multiset(rows)[c]
  {
    if rows != [] {
      WithoutCount(rows[1..], named, c);
      assert rows == [rows[0]] + rows[1..];
    }
  }

  lemma {:induction false} OfGroupCount(rows: seq<ChapterInfo>, g: Group, c: ChapterInfo)
    ensures multiset(OfGroup(rows, g))[c] == if InGroup(c, g) then multiset(rows)[c] else 0
  {
    if rows != [] {
      OfGroupCount(rows[1..], g, c);
      assert rows == [rows[0]] + rows[1..];
    }
  }

  lemma {:induction false} OutsideGroupCount(rows: seq<ChapterInfo>, g: Group, c: ChapterInfo)
    ensures multiset(OutsideGroup(rows, g))[c] == if InGroup(c, g) then 0 else multiset(rows)[c]
  {
    if rows != [] {
      OutsideGroupCount(rows[1..], g, c);
      assert rows == [rows[0]] + rows[1..];
    }
  }

  lemma PlainChaptersCount(rows: seq<ChapterInfo>, c: ChapterInfo)
    ensures multiset(PlainChapters(rows))[c] == if c.kind == Chapter then multiset(rows)[c] else 0
  {
    OutsideGroupCount(rows, Intro, c);
    OutsideGroupCount(OutsideGroup(rows, Intro), Credits, c);
  }

  lemma {:induction false} InsertCount(c: ChapterInfo, rows: seq<ChapterInfo>)
    ensures multiset(InsertByStart(c, rows)) == multiset{c} + multiset(rows)
  {
    if rows != [] && c.start > rows[0].start {
      InsertCount(c, rows[1..]);
      assert rows == [rows[0]] + rows[1..];
    }
  }

  lemma {:induction false} InsertSorted(c: ChapterInfo, rows: seq<ChapterInfo>)
    requires ByStart(rows)
    ensures ByStart(InsertByStart(c, rows))
  {
    if rows == [] || c.start <= rows[0].start {
    } else {
      var tail := InsertByStart(c, rows[1..]);
      InsertSorted(c, rows[1..]);
      InsertCount(c, rows[1..]);
      forall k | 0 <= k < |tail| ensures rows[0].start <= tail[k].start {
        assert tail[k] in multiset(tail);
        assert tail[k] == c || tail[k] in rows[1..];
      }
    }
  }

  lemma {:induction false} OrderByStartSorts(rows: seq<ChapterInfo>)
    ensures ByStart(OrderByStart(rows))
    ensures multiset(OrderByStart(rows)) == multiset(rows)
  {
    if rows != [] {
      OrderByStartSorts(rows[1..]);
      InsertCount(rows[0], OrderByStart(rows[1..]));
      InsertSorted(rows[0], OrderByStart(rows[1..]));
      assert rows == [rows[0]] + rows[1..];
    }
  }

  lemma {:induction false} AllOfGroup(rows: seq<ChapterInfo>, g: Group)
    requires forall r <- rows :: InGroup(r, g)
    ensures OfGroup(rows, g) == rows
  {
    if rows != [] {
      assert forall r <- rows[1..] :: r in rows;
      AllOfGroup(rows[1..], g);
    }
  }

  /** `Where(types.Contains)` over the wanted rows picks out that group's rows. */
  lemma RowsForOfGroup(m: Option<Markers>, g: Group)
    requires Paired(m)
    ensures OfGroup(RowsFor(m), g) == GroupRows(m, g)
  {
    OfGroupConcat(IntroRows(m), CreditsRows(m), g);
    match g
    case Intro =>
      AllOfGroup(IntroRows(m), Intro);
      assert OfGroup(CreditsRows(m), Intro) == [];
    case Credits =>
      AllOfGroup(CreditsRows(m), Credits);
      NoneOfGroup(IntroRows(m), Credits);
  }

  lemma {:induction false} NoneOfGroup(rows: seq<ChapterInfo>, g: Group)
    requires forall r <- rows :: !InGroup(r, g)
    ensures OfGroup(rows, g) == []
  {
    if rows != [] {
      assert forall r <- rows[1..] :: r in rows;
      NoneOfGroup(rows[1..], g);
    }
  }

  lemma {:induction false} OfGroupConcat(a: seq<ChapterInfo>, b: seq<ChapterInfo>, g: Group)
    ensures OfGroup(a + b, g) == OfGroup(a, g) + OfGroup(b, g)
  {
    if a == [] {
      assert a + b == b;
    } else {
      var first, rest := a[0], a[1..];
      OfGroupConcat(rest, b, g);
      assert a == [first] + rest && a + b == [first] + (rest + b);
    }
  }

  /** What the swap leaves of one group, as a function of that group alone. */
  function GroupSwap(list: seq<ChapterInfo>, rows: seq<ChapterInfo>, g: Group, replaceOthers: bool): seq<ChapterInfo> {
    if rows == [] then OfGroup(list, g)
    else if OfGroup(list, g) == [] || replaceOthers then rows
    else OfGroup(list, g)
  }

  lemma AddedTypeCount(list: seq<ChapterInfo>, rows: seq<ChapterInfo>, g: Group, replaceOthers: bool, c: ChapterInfo)
    requires forall r <- rows :: InGroup(r, g)
    ensures multiset(AddedType(list, rows, g, replaceOthers))[c]
         == if InGroup(c, g) then multiset(GroupSwap(list, rows, g, replaceOthers))[c] else multiset(list)[c]
  {
    OutsideGroupCount(list, g, c);
    OfGroupCount(list, g, c);
    assert multiset(list)[c] > 0 <==> c in list;
    assert multiset(rows)[c] > 0 <==> c in rows;
  }

  lemma AddedTypeOther(list: seq<ChapterInfo>, rows: seq<ChapterInfo>, g: Group, other: Group, replaceOthers: bool)
    requires g != other
    requires forall r <- rows :: InGroup(r, g)
    ensures OfGroup(AddedType(list, rows, g, replaceOthers), other) == OfGroup(list, other)
  {
    OfGroupConcat(OutsideGroup(list, g), rows, other);
    OfGroupConcat(list, rows, other);
    NoneOfGroup(rows, other);
    OfOtherGroup(list, g, other);
  }

  lemma {:induction false} OfOtherGroup(list: seq<ChapterInfo>, g: Group, other: Group)
    requires g != other
    ensures OfGroup(OutsideGroup(list, g), other) == OfGroup(list, other)
  {
    if list != [] {
      OfOtherGroup(list[1..], g, other);
    }
  }

  /** The whole swap on rows already without ours. */
  function Swap(list: seq<ChapterInfo>, wanted: Option<Markers>, replaceOthers: bool): seq<ChapterInfo>
    requires Paired(wanted)
  {
    AddedType(AddedType(list, IntroRows(wanted), Intro, replaceOthers), CreditsRows(wanted), Credits, replaceOthers)
  }

  lemma SwapCount(list: seq<ChapterInfo>, wanted: Option<Markers>, replaceOthers: bool, c: ChapterInfo)
    requires Paired(wanted)
    ensures multiset(Swap(list, wanted, replaceOthers))[c]
         == if InGroup(c, Intro) then multiset(GroupSwap(list, IntroRows(wanted), Intro, replaceOthers))[c]
            else if InGroup(c, Credits) then multiset(GroupSwap(list, CreditsRows(wanted), Credits, replaceOthers))[c]
            else multiset(list)[c]
  {
    var afterIntro := AddedType(list, IntroRows(wanted), Intro, replaceOthers);
    AddedTypeCount(list, IntroRows(wanted), Intro, replaceOthers, c);
    AddedTypeCount(afterIntro, CreditsRows(wanted), Credits, replaceOthers, c);
    AddedTypeOther(list, IntroRows(wanted), Intro, Credits, replaceOthers);
  }

  /** The rows of the item that aren't ours. */
  function Kept(existing: seq<ChapterInfo>, ours: Option<Markers>): seq<ChapterInfo>
    requires AllPaired(ours)
  {
    Without(existing, OurRows(ours))
  }

  lemma AppliedCount(existing: seq<ChapterInfo>, ours: Option<Markers>, wanted: Option<Markers>, replaceOthers: bool, c: ChapterInfo)
    requires AllPaired(ours) && Paired(wanted)
    ensures multiset(Applied(existing, ours, wanted, replaceOthers))[c] == multiset(Swap(Kept(existing, ours), wanted, replaceOthers))[c]
    ensures ByStart(Applied(existing, ours, wanted, replaceOthers))
  {
    OrderByStartSorts(Swap(Kept(existing, ours), wanted, replaceOthers));
  }

  /** A chapter of the file is never one of our rows. */
  lemma ChapterKept(existing: seq<ChapterInfo>, ours: Option<Markers>, c: ChapterInfo)
    requires AllPaired(ours) && c.kind == Chapter
    ensures multiset(Kept(existing, ours))[c] == multiset(existing)[c]
  {
    WithoutCount(existing, OurRows(ours), c);
    NoChapters(ours);
  }

  lemma NoChapters(ours: Option<Markers>)
    requires AllPaired(ours)
    ensures forall r <- OurRows(ours) :: r.kind != Chapter
  {
  }

  /** The number of wanted rows that ended on the item: what the program reports as written. */
  function WrittenRows(existing: seq<ChapterInfo>, ours: Option<Markers>, wanted: Option<Markers>, replaceOthers: bool, g: Group): nat
    requires AllPaired(ours) && Paired(wanted)
  {
    if OfGroup(Kept(existing, ours), g) == [] || replaceOthers then |GroupRows(wanted, g)| else 0
  }

  /** A count of rows written is never a guess: the group holds exactly that many rows, and they are the wanted ones. */
  lemma WrittenIsShown(existing: seq<ChapterInfo>, ours: Option<Markers>, wanted: Option<Markers>, replaceOthers: bool, g: Group)
    requires AllPaired(ours) && Paired(wanted)
    ensures var shown := OfGroup(Applied(existing, ours, wanted, replaceOthers), g);
            var written := WrittenRows(existing, ours, wanted, replaceOthers, g);
            && (written > 0 ==> |shown| == written && multiset(shown) == multiset(GroupRows(wanted, g)))
            && (written == 0 ==> multiset(shown) == multiset(OfGroup(Kept(existing, ours), g)))
  {
    AppliedGroup(existing, ours, wanted, replaceOthers, g);
    var shown := OfGroup(Applied(existing, ours, wanted, replaceOthers), g);
    if WrittenRows(existing, ours, wanted, replaceOthers, g) > 0 {
      assert |shown| == |multiset(shown)| == |multiset(GroupRows(wanted, g))|;
    }
  }

  /**
   * `Apply`, group by group. The file's own chapters survive as they were. A group without wanted rows loses exactly
   * our old rows; a group with wanted rows ends with exactly those when nobody else's rows were in it or replacing was
   * asked for, and otherwise keeps the others' rows and gets none of ours. The result is ordered by start.
   */
  lemma ApplyConserves(existing: seq<ChapterInfo>, ours: Option<Markers>, wanted: Option<Markers>, replaceOthers: bool)
    requires AllPaired(ours) && Paired(wanted)
    ensures var result := Applied(existing, ours, wanted, replaceOthers);
            && ByStart(result)
            && multiset(PlainChapters(result)) == multiset(PlainChapters(existing))
            && (forall g :: multiset(OfGroup(result, g)) == multiset(GroupSwap(Kept(existing, ours), GroupRows(wanted, g), g, replaceOthers)))
  {
    var result := Applied(existing, ours, wanted, replaceOthers);
    AppliedCount(existing, ours, wanted, replaceOthers, ChapterInfo("", 0, Chapter, Other));
    forall c ensures multiset(PlainChapters(result))[c] == multiset(PlainChapters(existing))[c] {
      ChaptersSurvive(existing, ours, wanted, replaceOthers, c);
    }
    forall g ensures multiset(OfGroup(result, g)) == multiset(GroupSwap(Kept(existing, ours), GroupRows(wanted, g), g, replaceOthers)) {
      AppliedGroup(existing, ours, wanted, replaceOthers, g);
    }
  }

  lemma ChaptersSurvive(existing: seq<ChapterInfo>, ours: Option<Markers>, wanted: Option<Markers>, replaceOthers: bool, c: ChapterInfo)
    requires AllPaired(ours) && Paired(wanted)
    ensures multiset(PlainChapters(Applied(existing, ours, wanted, replaceOthers)))[c] == multiset(PlainChapters(existing))[c]
  {
    PlainChaptersCount(Applied(existing, ours, wanted, replaceOthers), c);
    PlainChaptersCount(existing, c);
    if c.kind == Chapter {
      AppliedCount(existing, ours, wanted, replaceOthers, c);
      SwapCount(Kept(existing, ours), wanted, replaceOthers, c);
      ChapterKept(existing, ours, c);
    }
  }

  lemma AppliedGroup(existing: seq<ChapterInfo>, ours: Option<Markers>, wanted: Option<Markers>, replaceOthers: bool, g: Group)
    requires AllPaired(ours) && Paired(wanted)
    ensures multiset(OfGroup(Applied(existing, ours, wanted, replaceOthers), g))
         == multiset(GroupSwap(Kept(existing, ours), GroupRows(wanted, g), g, replaceOthers))
  {
    var result := Applied(existing, ours, wanted, replaceOthers);
    var list := Kept(existing, ours);
    var after := GroupSwap(list, GroupRows(wanted, g), g, replaceOthers);
    forall c ensures multiset(OfGroup(result, g))[c] == multiset(after)[c] {
      OfGroupCount(result, g, c);
      if InGroup(c, g) {
        AppliedCount(existing, ours, wanted, replaceOthers, c);
        SwapCount(list, wanted, replaceOthers, c);
      } else {
        SwapInGroup(list, wanted, replaceOthers, g, c);
      }
    }
  }

  lemma SwapInGroup(list: seq<ChapterInfo>, wanted: Option<Markers>, replaceOthers: bool, g: Group, c: ChapterInfo)
    requires Paired(wanted) && !InGroup(c, g)
    ensures multiset(GroupSwap(list, GroupRows(wanted, g), g, replaceOthers))[c] == 0
  {
    OfGroupCount(list, g, c);
    assert c in GroupRows(wanted, g) <==> multiset(GroupRows(wanted, g))[c] > 0;
  }

  // Membership ----------------------------------------------------------------------------------------------------

  /** Where a row of the result came from. */
  lemma AppliedOrigin(existing: seq<ChapterInfo>, ours: Option<Markers>, wanted: Option<Markers>, replaceOthers: bool, c: ChapterInfo)
    requires AllPaired(ours) && Paired(wanted)
    requires c in Applied(existing, ours, wanted, replaceOthers)
    ensures c in RowsFor(wanted) || (c in existing && !Listed(c, OurRows(ours)))
  {
    var list := Kept(existing, ours);
    assert multiset(Applied(existing, ours, wanted, replaceOthers))[c] > 0;
    AppliedCount(existing, ours, wanted, replaceOthers, c);
    SwapCount(list, wanted, replaceOthers, c);
    WithoutCount(existing, OurRows(ours), c);
    OfGroupCount(list, Intro, c);
    OfGroupCount(list, Credits, c);
    assert c in existing <==> multiset(existing)[c] > 0;
    assert c in IntroRows(wanted) <==> multiset(IntroRows(wanted))[c] > 0;
    assert c in CreditsRows(wanted) <==> multiset(CreditsRows(wanted))[c] > 0;
  }

  /** A row nobody named stays when replacing wasn't asked for. */
  lemma AppliedKeeps(existing: seq<ChapterInfo>, ours: Option<Markers>, wanted: Option<Markers>, c: ChapterInfo)
    requires AllPaired(ours) && Paired(wanted)
    requires c in existing && !Listed(c, OurRows(ours))
    ensures c in Applied(existing, ours, wanted, false)
  {
    var list := Kept(existing, ours);
    AppliedCount(existing, ours, wanted, false, c);
    SwapCount(list, wanted, false, c);
    WithoutCount(existing, OurRows(ours), c);
    assert multiset(existing)[c] > 0;
    OfGroupCount(list, Intro, c);
    OfGroupCount(list, Credits, c);
    assert multiset(Applied(existing, ours, wanted, false))[c] > 0;
  }

  // Keys ----------------------------------------------------------------------------------------------------------

  predicate KeyInGroup(k: (int, MarkerType, string), g: Group) {
    InGroup(ChapterInfo(k.2, k.0, k.1, Other), g)
  }

  lemma KeysCons(first: ChapterInfo, rest: seq<ChapterInfo>, k: (int, MarkerType, string))
    ensures multiset(Keys([first] + rest))[k] == multiset(Keys(rest))[k] + if Key(first) == k then 1 else 0
  {
    assert Keys([first] + rest) == [Key(first)] + Keys(rest);
  }

  lemma {:induction false} KeysOfGroupCount(rows: seq<ChapterInfo>, g: Group, k: (int, MarkerType, string))
    ensures multiset(Keys(OfGroup(rows, g)))[k] == if KeyInGroup(k, g) then multiset(Keys(rows))[k] else 0
  {
    if rows != [] {
      var first, rest := rows[0], rows[1..];
      KeysOfGroupCount(rest, g, k);
      assert rows == [first] + rest;
      KeysCons(first, rest, k);
      if InGroup(first, g) {
        KeysCons(first, OfGroup(rest, g), k);
      } else {
        assert [] + OfGroup(rest, g) == OfGroup(rest, g);
      }
    }
  }

  lemma SameRowsByGroup(a: seq<ChapterInfo>, b: seq<ChapterInfo>, g: Group)
    requires SameRows(a, b)
    ensures SameRows(OfGroup(a, g), OfGroup(b, g))
  {
    forall k ensures multiset(Keys(OfGroup(a, g)))[k] == multiset(Keys(OfGroup(b, g)))[k] {
      KeysOfGroupCount(a, g, k);
      KeysOfGroupCount(b, g, k);
    }
  }

  /** Equal keys mean every row has a twin on the other side. */
  lemma SameRowsTwin(a: seq<ChapterInfo>, b: seq<ChapterInfo>, c: ChapterInfo)
    requires SameRows(a, b) && c in a
    ensures Listed(c, b)
  {
    var i :| 0 <= i < |a| && a[i] == c;
    assert Keys(a)[i] == Key(c);
    assert Key(c) in multiset(Keys(a));
    assert Key(c) in Keys(b);
    var j :| 0 <= j < |b| && Keys(b)[j] == Key(c);
    assert SameRow(c, b[j]);
  }

  function DropAt(rows: seq<ChapterInfo>, j: nat): seq<ChapterInfo>
    requires j < |rows|
  {
    rows[..j] + rows[j + 1..]
  }

  lemma DropAtRows(rows: seq<ChapterInfo>, j: nat)
    requires j < |rows|
    ensures multiset(rows) == multiset{rows[j]} + multiset(DropAt(rows, j))
  {
    assert rows == rows[..j] + ([rows[j]] + rows[j + 1..]);
  }

  lemma DropAtKeys(rows: seq<ChapterInfo>, j: nat)
    requires j < |rows|
    ensures multiset(Keys(rows)) == multiset{Key(rows[j])} + multiset(Keys(DropAt(rows, j)))
  {
    var keys := Keys(rows);
    assert keys == keys[..j] + ([keys[j]] + keys[j + 1..]);
    assert Keys(DropAt(rows, j)) == keys[..j] + keys[j + 1..];
  }

  /** Equal multisets of rows have equal multisets of keys. */
  lemma {:induction false} PermutationKeys(a: seq<ChapterInfo>, b: seq<ChapterInfo>)
    requires multiset(a) == multiset(b)
    ensures SameRows(a, b)
  {
    if a == [] {
      assert |multiset(b)| == 0;
    } else {
      assert a[0] in multiset(b);
      var j :| 0 <= j < |b| && b[j] == a[0];
      DropAtRows(a, 0);
      DropAtRows(b, j);
      assert multiset(DropAt(a, 0)) == multiset(a) - multiset{a[0]};
      assert multiset(DropAt(b, j)) == multiset(b) - multiset{a[0]};
      PermutationKeys(DropAt(a, 0), DropAt(b, j));
      DropAtKeys(a, 0);
      DropAtKeys(b, j);
    }
  }
}
