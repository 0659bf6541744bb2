/**
 * The seat-selection page: the seat grid, looking the movie up by the route
 * id, toggling a seat in the pending selection, and the confirm button.
 */
module SeatSelection {

  import opened Wrappers
  import opened JsStrings
  import opened JsNumbers
  import opened Catalog
  import opened Browser

  const Rows: nat := 5
  const Cols: nat := 8

  /** The code shown on the seat at grid position `i`: `A${i + 1}`. */
  function SeatCode(i: nat): string
  {
    "A" + NatToString(i + 1)
  }

  /** The seats of the grid in display order. */
  function SeatGrid(): seq<string>
  {
    seq(Rows * Cols, i requires 0 <= i => SeatCode(i))
  }

  /** The grid has 40 seats, "A1" first and "A40" last, each code names a
      single position and none holds a comma. */
  lemma SeatGridShape()
    ensures |SeatGrid()| == 40
    ensures SeatGrid()[0] == "A1" && SeatGrid()[39] == "A40"
    ensures forall i :: 0 <= i < 40 ==> SeatGrid()[i] == "A" + NatToString(i + 1)
    ensures forall i, j :: 0 <= i < j < 40 ==> SeatGrid()[i] != SeatGrid()[j]
    ensures forall i :: 0 <= i < 40 ==> HasNoComma(SeatGrid()[i])
  {
    var grid := SeatGrid();
    assert NatToString(40) == NatToString(4) + [DigitChar(0)];
    forall i, j | 0 <= i < j < 40 ensures grid[i] != grid[j] {
      if grid[i] == grid[j] {
        assert NatToString(i + 1) == grid[i][1..];
        assert NatToString(j + 1) == grid[j][1..];
        NatToStringInjective(i + 1, j + 1);
      }
    }
    forall i | 0 <= i < 40 ensures HasNoComma(grid[i]) {
      assert forall k :: 1 <= k < |grid[i]| ==> grid[i][k] == NatToString(i + 1)[k - 1];
    }
  }

  /** `movies.find((m) => m.id.toString() === id)` */
  function FindMovie(catalog: seq<Movie>, id: string): Option<Movie>
  {
    if |catalog| == 0 then None
    else if IntToString(catalog[0].id) == id then Some(catalog[0])
    else FindMovie(catalog[1..], id)
  }

  /** The lookup fails exactly when no id renders as the route id, and
      otherwise yields the first movie whose id does. */
  lemma {:induction false} FindMovieFirstMatch(catalog: seq<Movie>, id: string)
    ensures FindMovie(catalog, id).None? <==> forall i :: 0 <= i < |catalog| ==> IntToString(catalog[i].id) != id
    ensures FindMovie(catalog, id).Some? ==>
              exists i :: 0 <= i < |catalog| && catalog[i] == FindMovie(catalog, id).value
                          && IntToString(catalog[i].id) == id
                          && forall j :: 0 <= j < i ==> IntToString(catalog[j].id) != id
  {
    if |catalog| > 0 && IntToString(catalog[0].id) != id {
      var tail := catalog[1..];
      FindMovieFirstMatch(tail, id);
      assert forall i :: 1 <= i < |catalog| ==> catalog[i] == tail[i - 1];
      if FindMovie(tail, id).Some? {
        var i :| 0 <= i < |tail| && tail[i] == FindMovie(tail, id).value
                 && IntToString(tail[i].id) == id
                 && forall j :: 0 <= j < i ==> IntToString(tail[j].id) != id;
        assert catalog[i + 1] == tail[i];
      }
    }
  }

  predicate DistinctIds(catalog: seq<Movie>)
  {
    forall i, j :: 0 <= i < j < |catalog| ==> catalog[i].id != catalog[j].id
  }

  lemma DistinctIdsTail(catalog: seq<Movie>)
    requires |catalog| > 0 && DistinctIds(catalog)
    ensures DistinctIds(catalog[1..])
  {
    var tail := catalog[1..];
    forall i, j | 0 <= i < j < |tail| ensures tail[i].id != tail[j].id {
      assert tail[i] == catalog[i + 1] && tail[j] == catalog[j + 1];
    }
  }

  /** In a catalog with distinct ids, the rendering of a movie's id finds exactly that movie. */
  lemma {:induction false} FindMovieById(catalog: seq<Movie>, k: nat)
    requires k < |catalog|
    requires DistinctIds(catalog)
    ensures FindMovie(catalog, IntToString(catalog[k].id)) == Some(catalog[k])
    decreases k
  {
    if k > 0 {
      if IntToString(catalog[0].id) == IntToString(catalog[k].id) {
        IntToStringInjective(catalog[0].id, catalog[k].id);
        assert false;
      }
      assert catalog[1..][k - 1] == catalog[k];
      DistinctIdsTail(catalog);
      FindMovieById(catalog[1..], k - 1);
    }
  }

  /** The catalog's ids are 1 to 10, in order. */
  lemma CatalogIds()
    ensures |Movies| == 10
    ensures forall i :: 0 <= i < |Movies| ==> Movies[i].id == i + 1
  {
  }

  /** Each movie of the catalog is found by its own id, and an id outside the
      catalog such as 9999 takes the "Filme não encontrado" branch. */
  lemma CatalogLookups()
    ensures forall k :: 0 <= k < |Movies| ==> FindMovie(Movies, IntToString(Movies[k].id)) == Some(Movies[k])
    ensures FindMovie(Movies, "9999") == None
  {
    CatalogIds();
    forall k | 0 <= k < |Movies| ensures FindMovie(Movies, IntToString(Movies[k].id)) == Some(Movies[k]) {
      FindMovieById(Movies, k);
    }
    assert IntToString(9999) == "9999" by {
      assert NatToString(9999) == NatToString(999) + [DigitChar(9)];
      assert NatToString(999) == NatToString(99) + [DigitChar(9)];
      assert NatToString(99) == NatToString(9) + [DigitChar(9)];
    }
    forall i | 0 <= i < |Movies| ensures IntToString(Movies[i].id) != "9999" {
      if IntToString(Movies[i].id) == "9999" {
        IntToStringInjective(Movies[i].id, 9999);
      }
    }
    FindMovieFirstMatch(Movies, "9999");
  }

  /** `prev.filter((s) => s !== seat)` */
  function RemoveAll(xs: seq<string>, seat: string): (r: seq<string>)
    ensures seat !in r
    ensures forall x :: x != seat ==> (x in r <==> x in xs)
    decreases |xs|
  {
    if |xs| == 0 then []
    else
      var r := (if xs[0] == seat then [] else [xs[0]]) + RemoveAll(xs[1..], seat);
      assert xs == [xs[0]] + xs[1..];
      r
  }

  /** Filtering drops every copy of `seat` and keeps every copy of the others. */
  lemma {:induction false} RemoveAllCounts(xs: seq<string>, seat: string)
    ensures multiset(RemoveAll(xs, seat)) == multiset(xs)[seat := 0]
    decreases |xs|
  {
    if |xs| > 0 {
      RemoveAllCounts(xs[1..], seat);
      assert xs == [xs[0]] + xs[1..];
    }
  }

  /** Filtering distributes over concatenation, so it keeps the surviving
      seats in their original order. */
  lemma {:induction false} RemoveAllConcat(a: seq<string>, b: seq<string>, seat: string)
    ensures RemoveAll(a + b, seat) == RemoveAll(a, seat) + RemoveAll(b, seat)
    decreases |a|
  {
    if |a| > 0 {
      var head := if a[0] == seat then [] else [a[0]];
      assert (a + b)[0] == a[0];
      assert (a + b)[1..] == a[1..] + b;
      calc {
        RemoveAll(a + b, seat);
        head + RemoveAll(a[1..] + b, seat);
        { RemoveAllConcat(a[1..], b, seat); }
        head + (RemoveAll(a[1..], seat) + RemoveAll(b, seat));
        (head + RemoveAll(a[1..], seat)) + RemoveAll(b, seat);
      }
    } else {
      assert a + b == b;
    }
  }

  /** Filtering out a seat that is not there changes nothing. */
  lemma {:induction false} RemoveAllAbsent(xs: seq<string>, seat: string)
    requires seat !in xs
    ensures RemoveAll(xs, seat) == xs
    decreases |xs|
  {
    if |xs| > 0 {
      RemoveAllAbsent(xs[1..], seat);
      assert xs == [xs[0]] + xs[1..];
    }
  }

  predicate NoDuplicates(xs: seq<string>)
  {
    forall i, j :: 0 <= i < j < |xs| ==> xs[i] != xs[j]
  }

  lemma {:induction false} RemoveAllNoDuplicates(xs: seq<string>, seat: string)
    requires NoDuplicates(xs)
    ensures NoDuplicates(RemoveAll(xs, seat))
    decreases |xs|
  {
    if |xs| > 0 {
      RemoveAllNoDuplicates(xs[1..], seat);
      assert xs[0] !in xs[1..];
    }
  }

  /** In a list without repeats a listed seat occurs exactly once. */
  lemma {:induction false} NoDuplicatesCount(xs: seq<string>, x: string)
    requires NoDuplicates(xs)
    requires x in xs
    ensures multiset(xs)[x] == 1
    decreases |xs|
  {
    var tail := xs[1..];
    assert xs == [xs[0]] + tail;
    assert NoDuplicates(tail) by {
      forall i, j | 0 <= i < j < |tail| ensures tail[i] != tail[j] {
        assert tail[i] == xs[i + 1] && tail[j] == xs[j + 1];
      }
    }
    if xs[0] == x {
      assert x !in tail by {
        forall i | 0 <= i < |tail| ensures tail[i] != x {
          assert tail[i] == xs[i + 1];
        }
      }
    } else {
      NoDuplicatesCount(tail, x);
    }
  }

  /** `toggleSeat`: the new selection, computed from the previous one. */
  function Toggle(prev: seq<string>, seat: string): (r: seq<string>)
    ensures seat in r <==> seat !in prev
    ensures forall x :: x != seat ==> (x in r <==> x in prev)
  {
    if seat in prev then RemoveAll(prev, seat) else prev + [seat]
  }

  /** Selecting a seat that is not selected appends it after the others. */
  lemma ToggleSelects(prev: seq<string>, seat: string)
    requires seat !in prev
    ensures Toggle(prev, seat) == prev + [seat]
  {
  }

  /** Toggling a selected seat removes every occurrence of it and no other seat. */
  lemma ToggleDeselects(prev: seq<string>, seat: string)
    requires seat in prev
    ensures multiset(Toggle(prev, seat)) == multiset(prev)[seat := 0]
  {
    RemoveAllCounts(prev, seat);
  }

  /** Whatever the case, the seats other than `seat` keep their order. */
  lemma ToggleKeepsOthersInOrder(prev: seq<string>, seat: string)
    ensures RemoveAll(Toggle(prev, seat), seat) == RemoveAll(prev, seat)
  {
    if seat !in prev {
      RemoveAllConcat(prev, [seat], seat);
      assert RemoveAll([seat], seat) == [];
    } else {
      RemoveAllAbsent(RemoveAll(prev, seat), seat);
    }
  }

  /** Selecting and then deselecting a free seat gives back the original selection. */
  lemma ToggleTwiceRestores(prev: seq<string>, seat: string)
    requires seat !in prev
    ensures Toggle(Toggle(prev, seat), seat) == prev
  {
    RemoveAllConcat(prev, [seat], seat);
    assert RemoveAll([seat], seat) == [];
    RemoveAllAbsent(prev, seat);
  }

  /** A selection without repeats keeps that property, and each toggle
      changes its length by exactly one. */
  lemma ToggleNoDuplicates(prev: seq<string>, seat: string)
    requires NoDuplicates(prev)
    ensures NoDuplicates(Toggle(prev, seat))
    ensures |Toggle(prev, seat)| == if seat in prev then |prev| - 1 else |prev| + 1
  {
    var r := Toggle(prev, seat);
    if seat in prev {
      RemoveAllNoDuplicates(prev, seat);
      RemoveAllCounts(prev, seat);
      NoDuplicatesCount(prev, seat);
      assert |multiset(r)| == |multiset(prev)| - 1;
    }
  }

  const ConfirmPrefix: string := "Assentos selecionados: "

  /** `handleConfirm`: report the selection, then go back to the catalog. */
  function HandleConfirm(selected: seq<string>): (effects: seq<Effect>)
    ensures WritesNothing(effects)
    ensures |effects| == 2 && effects[1] == Navigate(HomeRoute)
    ensures effects[0].Alert? && |effects[0].message| >= |ConfirmPrefix|
    ensures effects[0].message[..|ConfirmPrefix|] == ConfirmPrefix
    ensures |selected| == 0 ==> effects[0] == Alert(ConfirmPrefix)
  {
    [Alert(ConfirmPrefix + Join(selected, ListSeparator)), Navigate(HomeRoute)]
  }

  /** The confirmation lists exactly the selected seats, in selection order. */
  lemma ConfirmReportsSelection(selected: seq<string>)
    requires |selected| >= 1
    requires forall i :: 0 <= i < |selected| ==> HasNoComma(selected[i])
    ensures Split(HandleConfirm(selected)[0].message[|ConfirmPrefix|..]) == selected
  {
    var m := HandleConfirm(selected)[0].message;
    assert m[|ConfirmPrefix|..] == Join(selected, ListSeparator);
    SplitJoin(selected);
  }

  /** A selection made on the grid meets the condition above. */
  lemma GridSelectionReported(selected: seq<string>)
    requires |selected| >= 1
    requires forall i :: 0 <= i < |selected| ==> selected[i] in SeatGrid()
    ensures Split(HandleConfirm(selected)[0].message[|ConfirmPrefix|..]) == selected
  {
    SeatGridShape();
    forall i | 0 <= i < |selected| ensures HasNoComma(selected[i]) {
      var k :| 0 <= k < |SeatGrid()| && SeatGrid()[k] == selected[i];
    }
    ConfirmReportsSelection(selected);
  }
}
