/** `RollInspector._onSearchFilter`: the search box of the roll-option list. The
    list's `<li>` elements are rows of one array; each direct-child `ul.sub-list`
    names the rows inside it by position, so a row inside a sub-list is the same
    row the first loop updates. */
module SearchFilter {
  import opened JsStrings

  /** An `<li>`: its rendered text, whether it has the class `header`, and its `hidden` flag. */
  datatype Row = Row(text: JsString, isHeader: bool, hidden: bool)

  /** A direct-child `ul.sub-list`: the positions of the `<li>` rows inside it, and its `hidden` flag. */
  datatype SubList = SubList(members: seq<nat>, hidden: bool)

  /** What the first loop makes of one row. */
  function RowAfterSearch(row: Row, query: JsString): Row
  {
    if row.isHeader then row else row.(hidden := |query| > 0 && !Includes(row.text, query))
  }

  function RowsAfterSearch(rows: seq<Row>, query: JsString): (r: seq<Row>)
    ensures |r| == |rows|
  {
    seq(|rows|, i requires 0 <= i < |rows| => RowAfterSearch(rows[i], query))
  }

  /** Every sub-list names rows that exist. */
  ghost predicate MembersInRange(subLists: seq<SubList>, rowCount: nat)
  {
    forall s, k :: 0 <= s < |subLists| && 0 <= k < |subLists[s].members| ==> subLists[s].members[k] < rowCount
  }

  /** `htmlQueryAll(subList, "li:not(.header)").every((li) => li.hidden)` */
  predicate AllRowsHidden(rows: seq<Row>, members: seq<nat>)
    requires forall k :: 0 <= k < |members| ==> members[k] < |rows|
  {
    forall k :: 0 <= k < |members| ==> rows[members[k]].isHeader || rows[members[k]].hidden
  }

  /** What the second loop makes of the sub-lists, given the rows after the first. */
  function SubListsAfterSearch(subLists: seq<SubList>, rows: seq<Row>): (r: seq<SubList>)
    requires MembersInRange(subLists, |rows|)
    ensures |r| == |subLists|
  {
    seq(|subLists|, s requires 0 <= s < |subLists| =>
      subLists[s].(hidden := AllRowsHidden(rows, subLists[s].members)))
  }

  /** The whole update on values: rows first, then sub-lists from the new rows. */
  function SearchState(rows: seq<Row>, subLists: seq<SubList>, query: JsString): (r: (seq<Row>, seq<SubList>))
    requires MembersInRange(subLists, |rows|)
    ensures |r.0| == |rows| && |r.1| == |subLists|
    ensures forall i :: 0 <= i < |rows| ==> r.0[i].text == rows[i].text && r.0[i].isHeader == rows[i].isHeader
    ensures forall s :: 0 <= s < |subLists| ==> r.1[s].members == subLists[s].members
    ensures MembersInRange(r.1, |r.0|)
  {
    var newRows := RowsAfterSearch(rows, query);
    (newRows, SubListsAfterSearch(subLists, newRows))
  }

  /** The rendered roll-option list the search box filters. */
  class RollOptionsList {
    const rows: array<Row>
    const subLists: array<SubList>

    ghost predicate Valid()
      reads this, subLists
    {
      MembersInRange(subLists[..], rows.Length)
    }

    constructor (rows: array<Row>, subLists: array<SubList>)
      requires MembersInRange(subLists[..], rows.Length)
      ensures Valid() && this.rows == rows && this.subLists == subLists
    {
      this.rows := rows;
      this.subLists := subLists;
    }

    /** `_onSearchFilter(event, query, rgx, html)` */
    method OnSearchFilter(query: JsString)
      requires Valid()
      modifies rows, subLists
      ensures Valid()
      ensures (rows[..], subLists[..]) == SearchState(old(rows[..]), old(subLists[..]), query)
    {
      for i := 0 to rows.Length
        invariant forall k :: 0 <= k < i ==> rows[k] == RowAfterSearch(old(rows[k]), query)
        invariant forall k :: i <= k < rows.Length ==> rows[k] == old(rows[k])
        invariant subLists[..] == old(subLists[..])
      {
        var row := rows[i];
        if !row.isHeader {
          rows[i] := row.(hidden := |query| > 0 && !Includes(row.text, query));
        }
      }
      assert rows[..] == RowsAfterSearch(old(rows[..]), query);
      ghost var filtered := rows[..];
      for s := 0 to subLists.Length
        invariant rows[..] == filtered
        invariant forall k :: 0 <= k < s ==> subLists[k] == old(subLists[k]).(hidden := AllRowsHidden(filtered, old(subLists[k]).members))
        invariant forall k :: s <= k < subLists.Length ==> subLists[k] == old(subLists[k])
      {
        var subList := subLists[s];
        assert forall k :: 0 <= k < |subList.members| ==> subList.members[k] < rows.Length;
        subLists[s] := subList.(hidden := AllRowsHidden(rows[..], subList.members));
      }
      assert subLists[..] == SubListsAfterSearch(old(subLists[..]), filtered);
    }
  }

  /** After the search a plain row is hidden exactly when the query is non-empty and
      occurs nowhere in its text; header rows are left as they were, and no row's
      text or class changes. */
  lemma {:induction false} RowsAfterSearchSpec(rows: seq<Row>, query: JsString)
    ensures forall i :: 0 <= i < |rows| ==>
              RowsAfterSearch(rows, query)[i].text == rows[i].text
              && RowsAfterSearch(rows, query)[i].isHeader == rows[i].isHeader
    ensures forall i :: 0 <= i < |rows| && rows[i].isHeader ==> RowsAfterSearch(rows, query)[i] == rows[i]
    ensures forall i :: 0 <= i < |rows| && !rows[i].isHeader ==>
              (RowsAfterSearch(rows, query)[i].hidden <==> |query| > 0 && !exists p :: OccursAt(rows[i].text, query, p))
  {
    forall i | 0 <= i < |rows|
      ensures Includes(rows[i].text, query) <==> exists p :: OccursAt(rows[i].text, query, p)
    {
      IncludesIffOccurs(rows[i].text, query);
    }
  }

  /** An empty query shows every plain row, and so every sub-list that has one. */
  lemma {:induction false} EmptyQueryShowsAll(rows: seq<Row>, subLists: seq<SubList>)
    requires MembersInRange(subLists, |rows|)
    ensures forall i :: 0 <= i < |rows| && !rows[i].isHeader ==> !SearchState(rows, subLists, []).0[i].hidden
    ensures forall s, k :: 0 <= s < |subLists| && 0 <= k < |subLists[s].members| && !rows[subLists[s].members[k]].isHeader
              ==> !SearchState(rows, subLists, []).1[s].hidden
  {
  }

  /** A sub-list is hidden exactly when every plain row in it is hidden, which holds
      vacuously when it has none; its members do not change. */
  lemma {:induction false} SubListsAfterSearchSpec(subLists: seq<SubList>, rows: seq<Row>)
    requires MembersInRange(subLists, |rows|)
    ensures forall s :: 0 <= s < |subLists| ==> SubListsAfterSearch(subLists, rows)[s].members == subLists[s].members
    ensures forall s :: 0 <= s < |subLists| ==>
              (SubListsAfterSearch(subLists, rows)[s].hidden <==>
                 forall i :: i in subLists[s].members && !rows[i].isHeader ==> rows[i].hidden)
    ensures forall s :: 0 <= s < |subLists| && (forall i :: i in subLists[s].members ==> rows[i].isHeader) ==>
              SubListsAfterSearch(subLists, rows)[s].hidden
  {
  }

  /** The two loops together: a sub-list ends hidden exactly when no plain row in it
      shows a match, that is, when the query is non-empty and occurs in none of their
      texts, or when it holds no plain row at all. */
  lemma {:induction false} SubListHiddenIffNoMatch(rows: seq<Row>, subLists: seq<SubList>, query: JsString)
    requires MembersInRange(subLists, |rows|)
    ensures forall s :: 0 <= s < |subLists| ==>
              (SearchState(rows, subLists, query).1[s].hidden <==>
                 forall i :: i in subLists[s].members && !rows[i].isHeader ==>
                   |query| > 0 && !exists p :: OccursAt(rows[i].text, query, p))
  {
    RowsAfterSearchSpec(rows, query);
    SubListsAfterSearchSpec(subLists, RowsAfterSearch(rows, query));
  }

  /** Searching again for the same query changes nothing. */
  lemma {:induction false} SearchIdempotent(rows: seq<Row>, subLists: seq<SubList>, query: JsString)
    requires MembersInRange(subLists, |rows|)
    ensures MembersInRange(SearchState(rows, subLists, query).1, |rows|)
    ensures var once := SearchState(rows, subLists, query);
      SearchState(once.0, once.1, query) == once
  {
    var once := SearchState(rows, subLists, query);
    assert MembersInRange(once.1, |rows|) by {
      forall s | 0 <= s < |subLists|
        ensures once.1[s].members == subLists[s].members
      {
      }
    }
    var twice := SearchState(once.0, once.1, query);
    forall i | 0 <= i < |rows|
      ensures twice.0[i] == once.0[i]
    {
      assert once.0[i].text == rows[i].text;
    }
    assert twice.0 == once.0;
    forall s | 0 <= s < |subLists|
      ensures twice.1[s] == once.1[s]
    {
    }
    assert twice.1 == once.1;
  }

  /** The search recomputes every flag it sets: rows that differ only in their
      plain rows' and sub-lists' `hidden` flags end in the same state. */
  lemma {:induction false} SearchIgnoresPreviousFlags(rows: seq<Row>, rows': seq<Row>, subLists: seq<SubList>, subLists': seq<SubList>, query: JsString)
    requires |rows| == |rows'| && |subLists| == |subLists'|
    requires forall i :: 0 <= i < |rows| ==>
               rows[i].text == rows'[i].text && rows[i].isHeader == rows'[i].isHeader
               && (rows[i].isHeader ==> rows[i].hidden == rows'[i].hidden)
    requires forall s :: 0 <= s < |subLists| ==> subLists[s].members == subLists'[s].members
    requires MembersInRange(subLists, |rows|)
    ensures MembersInRange(subLists', |rows'|)
    ensures SearchState(rows, subLists, query) == SearchState(rows', subLists', query)
  {
    var a, b := SearchState(rows, subLists, query), SearchState(rows', subLists', query);
    forall i | 0 <= i < |rows|
      ensures a.0[i] == b.0[i]
    {
    }
    assert a.0 == b.0;
    forall s | 0 <= s < |subLists|
      ensures a.1[s] == b.1[s]
    {
    }
    assert a.1 == b.1;
  }

  /** The match is case-sensitive: searching `fire` keeps `trait:fire` shown and
      hides `Fire`. */
  lemma {:induction false} SearchExample(query: JsString, namespaced: JsString, capitalised: JsString)
    requires query == Ascii("fire") && namespaced == Ascii("trait:fire") && capitalised == Ascii("Fire")
    ensures !RowAfterSearch(Row(namespaced, false, true), query).hidden
    ensures RowAfterSearch(Row(capitalised, false, false), query).hidden
  {
    assert namespaced[6..10] == query;
    assert OccursAt(namespaced, query, 6);
    IncludesIffOccurs(namespaced, query);
    IncludesIffOccurs(capitalised, query);
    forall p | 0 <= p && p + |query| <= |capitalised|
      ensures !OccursAt(capitalised, query, p)
    {
      assert capitalised[p..p + |query|][0] == capitalised[0] != query[0];
    }
  }
}
