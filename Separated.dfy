/** The grammar's `commaSep1`/`sep1` helpers and the bracketed item lists built
    from them (`argument_list`, `list`, `dict`), at the level of a node's children:
    each child is an item or a `,` separator. */
module Separated {
  import opened Wrappers

  datatype Child<T> = Item(item: T) | Comma

  /** `sep1(rule, ",")`: the items with a `,` between every two of them. */
  function Join<T>(items: seq<T>): (r: seq<Child<T>>)
    ensures |r| == if items == [] then 0 else 2 * |items| - 1
  {
    if |items| <= 1 then (if items == [] then [] else [Item(items[0])])
    else [Item(items[0]), Comma] + Join(items[1..])
  }

  /** The joined children alternate: the items in order at the even positions,
      a `,` at every odd one. */
  lemma {:induction false} JoinAlternates<T>(items: seq<T>)
    ensures forall k :: 0 <= k < |Join(items)| ==>
      Join(items)[k] == if k % 2 == 0 then Item(items[k / 2]) else Comma
    decreases |items|
  {
    if |items| > 1 {
      JoinAlternates(items[1..]);
    }
  }

  /** Recognises `rule ("," rule)*`: one or more items separated by single commas,
      and gives back the items. */
  function SplitSep1<T>(cs: seq<Child<T>>): (r: Option<seq<T>>)
    ensures r.Some? ==> |r.value| > 0 && Join(r.value) == cs
    decreases |cs|
  {
    if |cs| == 1 && cs[0].Item? then Some([cs[0].item])
    else if |cs| >= 3 && cs[0].Item? && cs[1].Comma? then
      match SplitSep1(cs[2..])
      case Some(rest) => Some([cs[0].item] + rest)
      case None => None
    else None
  }

  lemma {:induction false} SplitSep1Join<T>(items: seq<T>)
    requires |items| > 0
    ensures SplitSep1(Join(items)) == Some(items)
    decreases |items|
  {
    if |items| > 1 {
      var cs := Join(items);
      SplitSep1Join(items[1..]);
      assert cs[2..] == Join(items[1..]);
      assert [items[0]] + items[1..] == items;
    } else {
      assert items == [items[0]];
    }
  }

  /** `seq(optional(commaSep1(rule)), optional(","))`, the inside of a bracketed
      list: the item list and the trailing comma are independently optional,
      so a lone `,` is accepted. */
  datatype Bracketed<T> = Bracketed(items: seq<T>, trailingComma: bool)

  /** The children between the brackets: the joined items, then the trailing comma. */
  function Children<T>(b: Bracketed<T>): (r: seq<Child<T>>)
    ensures r == [] <==> b.items == [] && !b.trailingComma
    ensures r != [] ==> (r[|r| - 1].Comma? <==> b.trailingComma)
  {
    JoinAlternates(b.items);
    Join(b.items) + (if b.trailingComma then [Comma] else [])
  }

  /** Recognises the children between the brackets. */
  function ParseBracketed<T>(cs: seq<Child<T>>): (r: Option<Bracketed<T>>)
    ensures r.Some? ==> Children(r.value) == cs
  {
    if |cs| == 0 then Some(Bracketed([], false))
    else if |cs| == 1 && cs[0].Comma? then Some(Bracketed([], true))
    else if cs[|cs| - 1].Comma? then
      match SplitSep1(cs[..|cs| - 1])
      case Some(items) => Some(Bracketed(items, true))
      case None => None
    else
      match SplitSep1(cs)
      case Some(items) => Some(Bracketed(items, false))
      case None => None
  }

  /** Every bracketed list is recognised as itself: the children determine the
      items and the trailing comma. */
  lemma ParseBracketedChildren<T>(b: Bracketed<T>)
    ensures ParseBracketed(Children(b)) == Some(b)
  {
    var cs := Children(b);
    if b.items != [] {
      SplitSep1Join(b.items);
      if b.trailingComma {
        assert cs[..|cs| - 1] == Join(b.items);
      } else {
        assert cs == Join(b.items);
      }
    }
  }

  /** `()`, `(,)`, `(a)` and `(a,)` are accepted; a doubled comma and a leading comma
      before an item are not. */
  lemma BracketedExamples<T>(a: T)
    ensures ParseBracketed<T>([]) == Some(Bracketed([], false))
    ensures ParseBracketed<T>([Comma]) == Some(Bracketed([], true))
    ensures ParseBracketed([Item(a)]) == Some(Bracketed([a], false))
    ensures ParseBracketed([Item(a), Comma]) == Some(Bracketed([a], true))
    ensures ParseBracketed([Item(a), Comma, Comma]) == None
    ensures ParseBracketed([Comma, Item(a)]) == None
  {
    var twoCommas: seq<Child<T>> := [Item(a), Comma, Comma];
    assert twoCommas[..2] == [Item(a), Comma];
    assert [Item(a), Comma][2..] == [];
  }
}
