/**
 * The editable item lists of the menu: the three handlers of `ItemEditor`
 * (set a field of one item, remove one item, append a blank item).
 */
module MenuItems {

  /** The three text inputs of one row of the editor. */
  datatype Field = Name | PriceBGN | PriceEUR

  /** One line of a menu section; all three fields are free text as typed. */
  datatype Item = Item(name: string, priceBGN: string, priceEUR: string)
  {
    function Get(f: Field): string
    {
      match f
      case Name => name
      case PriceBGN => priceBGN
      case PriceEUR => priceEUR
    }

    /** This item with field `f` replaced by `v`. */
    function With(f: Field, v: string): (r: Item)
      ensures r.Get(f) == v
      ensures forall g :: g != f ==> r.Get(g) == Get(g)
    {
      match f
      case Name => this.(name := v)
      case PriceBGN => this.(priceBGN := v)
      case PriceEUR => this.(priceEUR := v)
    }
  }

  /** The item the "+ Добави" button appends. */
  const Blank := Item("", "", "")

  /** The list an `onChange` handler of an input hands to `setItems`. */
  function SetField(items: seq<Item>, idx: nat, f: Field, v: string): (r: seq<Item>)
    requires idx < |items|
    ensures |r| == |items|
    ensures r[idx].Get(f) == v
    ensures forall g :: g != f ==> r[idx].Get(g) == items[idx].Get(g)
    ensures forall j :: 0 <= j < |items| && j != idx ==> r[j] == items[j]
    ensures r[..idx] == items[..idx] && r[idx + 1..] == items[idx + 1..]
  {
    items[idx := items[idx].With(f, v)]
  }

  /** The handler as written: copy the list, then assign into element `idx` of the copy. */
  method EditCopy(items: seq<Item>, idx: nat, f: Field, v: string) returns (updated: seq<Item>)
    requires idx < |items|
    ensures updated == SetField(items, idx, f, v)
  {
    var a := new Item[|items|](i requires 0 <= i < |items| => items[i]);
    a[idx] := a[idx].With(f, v);
    updated := a[..];
  }

  /** `items.filter((_, i) => i !== idx)`: walks the list keeping every position but `idx`. */
  function RemoveAt(items: seq<Item>, idx: int): (r: seq<Item>)
    ensures 0 <= idx < |items| ==> |r| == |items| - 1 && r == items[..idx] + items[idx + 1..]
    ensures !(0 <= idx < |items|) ==> r == items
    decreases |items|
  {
    if items == [] then []
    else (if idx == 0 then [] else [items[0]]) + RemoveAt(items[1..], idx - 1)
  }

  /** `[...items, { name: "", priceBGN: "", priceEUR: "" }]` */
  function AppendBlank(items: seq<Item>): (r: seq<Item>)
    ensures |r| == |items| + 1
    ensures r[..|items|] == items
    ensures r[|items|] == Blank
  {
    items + [Blank]
  }

  /** Removing the row just appended gives back the list before the append. */
  lemma RemoveAppendedBlank(items: seq<Item>)
    ensures RemoveAt(AppendBlank(items), |items|) == items
  {
    assert AppendBlank(items)[..|items|] == items;
  }

  /** Typing the value a field already holds leaves the list as it was. */
  lemma SetFieldSameValue(items: seq<Item>, idx: nat, f: Field)
    requires idx < |items|
    ensures SetField(items, idx, f, items[idx].Get(f)) == items
  {
    var r := SetField(items, idx, f, items[idx].Get(f));
    assert r[idx] == items[idx] by {
      match items[idx]
      case Item(n, b, e) =>
    }
  }

  /** Only the last value typed into a field counts. */
  lemma SetFieldTwice(items: seq<Item>, idx: nat, f: Field, v: string, w: string)
    requires idx < |items|
    ensures SetField(SetField(items, idx, f, v), idx, f, w) == SetField(items, idx, f, w)
  {
    var r := SetField(SetField(items, idx, f, v), idx, f, w);
    var q := SetField(items, idx, f, w);
    assert r[idx] == q[idx] by {
      match f
      case Name =>
      case PriceBGN =>
      case PriceEUR =>
    }
  }
}
