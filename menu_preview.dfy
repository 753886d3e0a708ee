/**
 * What `MenuPreview` renders from the three item lists: the sections that have at
 * least one named item, in the fixed order soups, dishes, desserts, each with one
 * row per named item carrying the item's name and its price label.
 */
module MenuPreview {
  import opened Wrappers
  import opened MenuItems

  /** The three fixed sections of the menu. */
  datatype Section = Soups | Dishes | Desserts
  {
    function Title(): string
    {
      match this
      case Soups => "Супи"
      case Dishes => "Ястия"
      case Desserts => "Десерти"
    }

    /** Position of the section on the rendered page. */
    function Order(): nat
    {
      match this
      case Soups => 0
      case Dishes => 1
      case Desserts => 2
    }
  }

  /** The three lists the component passes to the preview. */
  datatype Menu = Menu(soups: seq<Item>, dishes: seq<Item>, desserts: seq<Item>)
  {
    function Items(s: Section): seq<Item>
    {
      match s
      case Soups => soups
      case Dishes => dishes
      case Desserts => desserts
    }

    /** This menu with the list of section `s` replaced, as that section's `setItems` does. */
    function With(s: Section, items: seq<Item>): (r: Menu)
      ensures r.Items(s) == items
      ensures forall t :: t != s ==> r.Items(t) == Items(t)
    {
      match s
      case Soups => this.(soups := items)
      case Dishes => this.(dishes := items)
      case Desserts => this.(desserts := items)
    }
  }

  /** The price cell of a row: the BGN text, then the EUR span, each only when its price is non-empty. */
  datatype PriceLabel = PriceLabel(bgn: Option<string>, eur: Option<string>)
  {
    function Text(): string
    {
      (if bgn.Some? then bgn.value else "") + (if eur.Some? then eur.value else "")
    }
  }

  datatype Row = Row(name: string, price: PriceLabel)

  /** One `<section>` of the page: its heading and its rows. */
  datatype RenderedSection = RenderedSection(section: Section, title: string, rows: seq<Row>)

  /** `items.filter((i) => i.name)`: the items whose name is a non-empty string. */
  function Visible(items: seq<Item>): (r: seq<Item>)
    ensures |r| <= |items|
  {
    if items == [] then []
    else (if items[0].name != "" then [items[0]] else []) + Visible(items[1..])
  }

  function Label(priceBGN: string, priceEUR: string): (r: PriceLabel)
    ensures r.bgn.Some? <==> priceBGN != ""
    ensures r.bgn.Some? ==> r.bgn.value == priceBGN + " лв"
    ensures r.eur.Some? <==> priceEUR != ""
    ensures r.eur.Some? ==> r.eur.value == "/  " + priceEUR + "€"
    ensures r.Text() == "" <==> priceBGN == "" && priceEUR == ""
  {
    PriceLabel(if priceBGN != "" then Some(priceBGN + " лв") else None,
               if priceEUR != "" then Some("/  " + priceEUR + "€") else None)
  }

  /** The row of one item: its name, then its price label. */
  function RowOf(item: Item): (r: Row)
    ensures r.name == item.name
    ensures r.price.Text() == "" <==> item.priceBGN == "" && item.priceEUR == ""
  {
    Row(item.name, Label(item.priceBGN, item.priceEUR))
  }

  /** `items.map(...)`: one row per item, in the order of the list. */
  function Rows(items: seq<Item>): (r: seq<Row>)
    ensures |r| == |items|
    ensures forall i :: 0 <= i < |r| ==> r[i].name == items[i].name
  {
    seq(|items|, i requires 0 <= i < |items| => RowOf(items[i]))
  }

  /** The section element for `s`, present only when some item survives the filter. */
  function Part(m: Menu, s: Section): (r: seq<RenderedSection>)
    ensures |r| <= 1
    ensures r != [] <==> Visible(m.Items(s)) != []
    ensures r != [] ==> r[0] == RenderedSection(s, s.Title(), Rows(Visible(m.Items(s)))) && r[0].rows != []
  {
    var v := Visible(m.Items(s));
    if v == [] then [] else [RenderedSection(s, s.Title(), Rows(v))]
  }

  /** The sections of the rendered page, between the fixed header and footer. */
  function Render(m: Menu): (r: seq<RenderedSection>)
    ensures |r| <= 3
  {
    Part(m, Soups) + Part(m, Dishes) + Part(m, Desserts)
  }

  /** Which part of the page position `k` falls in. */
  lemma RenderIndex(m: Menu, k: nat)
    requires k < |Render(m)|
    ensures var p0, p1 := Part(m, Soups), Part(m, Dishes);
      Render(m)[k] == if k < |p0| then p0[0] else if k < |p0| + |p1| then p1[0] else Part(m, Desserts)[0]
  {
    var p0, p1, p2 := Part(m, Soups), Part(m, Dishes), Part(m, Desserts);
    if k < |p0| {
      assert Render(m)[k] == p0[k];
    } else if k < |p0| + |p1| {
      assert Render(m)[k] == p1[k - |p0|];
    } else {
      assert Render(m)[k] == p2[k - |p0| - |p1|];
    }
  }

  /**
   * Every section on the page carries its own heading and shows exactly the named
   * items of its list, and at least one.
   */
  lemma RenderRows(m: Menu, k: nat)
    requires k < |Render(m)|
    ensures Render(m)[k].title == Render(m)[k].section.Title()
    ensures Render(m)[k].rows == Rows(Visible(m.Items(Render(m)[k].section)))
    ensures Render(m)[k].rows != []
  {
    RenderIndex(m, k);
  }

  /** The sections appear in the fixed order soups, dishes, desserts, each at most once. */
  lemma RenderOrdered(m: Menu, k: nat)
    requires 0 < k < |Render(m)|
    ensures Render(m)[k - 1].section.Order() < Render(m)[k].section.Order()
  {
    RenderIndex(m, k - 1);
    RenderIndex(m, k);
  }

  /** Every item that survives the filter has a name. */
  lemma {:induction false} VisibleNamed(items: seq<Item>)
    ensures forall i :: 0 <= i < |Visible(items)| ==> Visible(items)[i].name != ""
    decreases |items|
  {
    if items != [] {
      VisibleNamed(items[1..]);
    }
  }

  /** An item is rendered exactly when it is in the list and has a name. */
  lemma {:induction false} VisibleMembers(items: seq<Item>, x: Item)
    ensures x in Visible(items) <==> x in items && x.name != ""
    decreases |items|
  {
    if items != [] {
      VisibleMembers(items[1..], x);
      assert items == [items[0]] + items[1..];
    }
  }

  /** A section is on the page exactly when some item of it has a name. */
  lemma SectionShown(m: Menu, s: Section)
    ensures Visible(m.Items(s)) != [] <==> exists k :: 0 <= k < |Render(m)| && Render(m)[k].section == s
  {
    var r := Render(m);
    var p0, p1 := Part(m, Soups), Part(m, Dishes);
    if Visible(m.Items(s)) != [] {
      var k := match s
        case Soups => 0
        case Dishes => |p0|
        case Desserts => |p0| + |p1|;
      RenderIndex(m, k);
      assert r[k].section == s;
    } else {
      forall k | 0 <= k < |r| ensures r[k].section != s {
        RenderIndex(m, k);
      }
    }
  }

  /** Filtering a concatenation filters each half. */
  lemma {:induction false} VisibleAppend(a: seq<Item>, b: seq<Item>)
    ensures Visible(a + b) == Visible(a) + Visible(b)
    decreases |a|
  {
    if a == [] {
      assert a + b == b;
    } else {
      assert (a + b)[1..] == a[1..] + b;
      VisibleAppend(a[1..], b);
    }
  }

  /** Filtering keeps one item exactly when it has a name. */
  lemma VisibleSingle(x: Item)
    ensures Visible([x]) == if x.name != "" then [x] else []
  {
    assert [x][1..] == [];
  }

  lemma Split(items: seq<Item>, idx: nat)
    requires idx < |items|
    ensures items == items[..idx] + [items[idx]] + items[idx + 1..]
  {
  }

  /** The filter around position `idx`: what precedes, the item itself if named, what follows. */
  lemma VisibleAround(items: seq<Item>, idx: nat)
    requires idx < |items|
    ensures Visible(items) == Visible(items[..idx]) + Visible([items[idx]]) + Visible(items[idx + 1..])
  {
    Split(items, idx);
    VisibleAppend(items[..idx] + [items[idx]], items[idx + 1..]);
    VisibleAppend(items[..idx], [items[idx]]);
  }

  /** A list whose every item is named renders every item. */
  lemma {:induction false} VisibleAllNamed(items: seq<Item>)
    requires forall i :: 0 <= i < |items| ==> items[i].name != ""
    ensures Visible(items) == items
    decreases |items|
  {
    if items != [] {
      VisibleAllNamed(items[1..]);
    }
  }

  /** A section is hidden exactly when none of its items has a name. */
  lemma VisibleEmptyIff(items: seq<Item>)
    ensures Visible(items) == [] <==> forall i :: 0 <= i < |items| ==> items[i].name == ""
  {
    if Visible(items) == [] {
      forall i | 0 <= i < |items| ensures items[i].name == "" {
        VisibleMembers(items, items[i]);
      }
    } else {
      var x := Visible(items)[0];
      VisibleMembers(items, x);
      var i :| 0 <= i < |items| && items[i] == x;
    }
  }

  /** The page depends on a section's list only through the filtered list. */
  lemma SameVisibleSameRender(m: Menu, s: Section, items: seq<Item>)
    requires Visible(items) == Visible(m.Items(s))
    ensures Render(m.With(s, items)) == Render(m)
  {
    var m' := m.With(s, items);
    assert forall t :: Visible(m'.Items(t)) == Visible(m.Items(t));
    assert Part(m', Soups) == Part(m, Soups);
    assert Part(m', Dishes) == Part(m, Dishes);
    assert Part(m', Desserts) == Part(m, Desserts);
  }

  /** Appending a blank item does not change the rendered page. */
  lemma AppendBlankKeepsRender(m: Menu, s: Section)
    ensures Render(m.With(s, AppendBlank(m.Items(s)))) == Render(m)
  {
    var items := m.Items(s);
    VisibleAppend(items, [Blank]);
    VisibleSingle(Blank);
    SameVisibleSameRender(m, s, AppendBlank(items));
  }

  /** Removing an unnamed item does not change the rendered page. */
  lemma RemoveUnnamedKeepsRender(m: Menu, s: Section, idx: nat)
    requires idx < |m.Items(s)| && m.Items(s)[idx].name == ""
    ensures Render(m.With(s, RemoveAt(m.Items(s), idx))) == Render(m)
  {
    VisibleRemoveUnnamed(m.Items(s), idx);
    SameVisibleSameRender(m, s, RemoveAt(m.Items(s), idx));
  }

  lemma VisibleRemoveUnnamed(items: seq<Item>, idx: nat)
    requires idx < |items| && items[idx].name == ""
    ensures Visible(RemoveAt(items, idx)) == Visible(items)
  {
    ClearNameHidesLikeRemove(items, idx);
    SetFieldSameValue(items, idx, Name);
  }

  /** Clearing an item's name hides it from the page exactly as removing it would. */
  lemma ClearNameHidesLikeRemove(items: seq<Item>, idx: nat)
    requires idx < |items|
    ensures Visible(SetField(items, idx, Name, "")) == Visible(RemoveAt(items, idx))
  {
    var cleared := SetField(items, idx, Name, "");
    VisibleAround(cleared, idx);
    VisibleSingle(cleared[idx]);
    VisibleAppend(items[..idx], items[idx + 1..]);
  }

  /** The names shown in a section's rows. */
  function Names(items: seq<Item>): seq<string>
  {
    seq(|items|, i requires 0 <= i < |items| => items[i].name)
  }

  /** Editing a price leaves the sequence of names shown in that section unchanged. */
  lemma EditPriceKeepsNames(items: seq<Item>, idx: nat, f: Field, v: string)
    requires idx < |items| && f != Name
    ensures Names(Visible(SetField(items, idx, f, v))) == Names(Visible(items))
  {
    var edited := SetField(items, idx, f, v);
    NamesVisibleAround(items, idx);
    NamesVisibleAround(edited, idx);
    NamesVisibleSingle(items[idx], edited[idx]);
  }

  lemma NamesVisibleSingle(x: Item, y: Item)
    requires x.name == y.name
    ensures Names(Visible([x])) == Names(Visible([y]))
  {
    VisibleSingle(x);
    VisibleSingle(y);
  }

  lemma NamesVisibleAround(items: seq<Item>, idx: nat)
    requires idx < |items|
    ensures Names(Visible(items)) ==
      Names(Visible(items[..idx])) + Names(Visible([items[idx]])) + Names(Visible(items[idx + 1..]))
  {
    VisibleAround(items, idx);
    var pre, mid, post := Visible(items[..idx]), Visible([items[idx]]), Visible(items[idx + 1..]);
    NamesAppend(pre + mid, post);
    NamesAppend(pre, mid);
  }

  lemma NamesAppend(a: seq<Item>, b: seq<Item>)
    ensures Names(a + b) == Names(a) + Names(b)
  {
    assert forall i :: 0 <= i < |a + b| ==> Names(a + b)[i] == (Names(a) + Names(b))[i];
  }

  /** Removing the only item of a section takes the section off the page. */
  lemma RemoveOnlyItemHidesSection(m: Menu, s: Section)
    requires |m.Items(s)| == 1
    ensures forall k :: 0 <= k < |Render(m.With(s, RemoveAt(m.Items(s), 0)))| ==>
              Render(m.With(s, RemoveAt(m.Items(s), 0)))[k].section != s
  {
    var m' := m.With(s, RemoveAt(m.Items(s), 0));
    assert m'.Items(s) == [];
    SectionShown(m', s);
  }

  /** Different prices give different labels: the label never loses a price. */
  lemma LabelDeterminesPrices(b1: string, e1: string, b2: string, e2: string)
    requires Label(b1, e1) == Label(b2, e2)
    ensures b1 == b2 && e1 == e2
  {
    var l := Label(b1, e1);
    if l.bgn.Some? {
      assert (b1 + " лв")[..|b1|] == b1;
      assert |b1| == |b2|;
      assert (b2 + " лв")[..|b2|] == b2;
    }
    if l.eur.Some? {
      assert ("/  " + e1 + "€")[3..|e1| + 3] == e1;
      assert ("/  " + e2 + "€")[3..|e2| + 3] == e2;
    }
  }
}
