/**
 * The item list of one cart and the edits the cart handlers make to it,
 * as values: finding a line, adding to it or appending one, changing a
 * line by one, and filtering a product's lines out. `Reserved` is the
 * amount of a product a list holds; the lemmas say by how much each edit
 * changes it and that the edits keep a list free of duplicate product
 * ids and of lines at zero or below.
 */
module CartLines {
  import opened Domain

  /** One cart line: `{ productId, quantity }`. */
  datatype Line = Line(productId: ProductId, quantity: int)

  /** `items.findIndex(i => i.productId === p)` (and `items.find`, which picks the same line). */
  function FindLine(items: seq<Line>, p: ProductId): (k: int)
    ensures -1 <= k < |items|
    ensures 0 <= k ==> items[k].productId == p && forall j :: 0 <= j < k ==> items[j].productId != p
    ensures k == -1 ==> !HasLine(items, p)
  {
    FirstIndex(items, (l: Line) => l.productId == p)
  }

  /** Lists that agree on every line's product id have their lines of `p` at the same place. */
  lemma FindLineSameIds(a: seq<Line>, b: seq<Line>, p: ProductId)
    requires |a| == |b| && forall i :: 0 <= i < |a| ==> a[i].productId == b[i].productId
    ensures FindLine(a, p) == FindLine(b, p)
  {
    assert HasLine(a, p) <==> HasLine(b, p);
  }

  predicate HasLine(items: seq<Line>, p: ProductId) {
    exists i :: 0 <= i < |items| && items[i].productId == p
  }

  /** No product id appears on two lines. */
  predicate NoDuplicates(items: seq<Line>) {
    forall i, j :: 0 <= i < j < |items| ==> items[i].productId != items[j].productId
  }

  /** No line is kept at zero or below. */
  predicate AllPositive(items: seq<Line>) {
    forall i :: 0 <= i < |items| ==> items[i].quantity >= 1
  }

  predicate WellFormed(items: seq<Line>) {
    NoDuplicates(items) && AllPositive(items)
  }

  /** What line `l` holds of product `p`. */
  function Share(l: Line, p: ProductId): int {
    if l.productId == p then l.quantity else 0
  }

  /** The total quantity of product `p` held by the lines of `items`. */
  function Reserved(items: seq<Line>, p: ProductId): int {
    if items == [] then 0 else Share(items[0], p) + Reserved(items[1..], p)
  }

  /** The line at `k` with its quantity changed by `delta` (`item.quantity += delta`). */
  function Bump(items: seq<Line>, k: nat, delta: int): (r: seq<Line>)
    requires k < |items|
    ensures |r| == |items|
    ensures r[k] == Line(items[k].productId, items[k].quantity + delta)
    ensures forall i :: 0 <= i < |items| && i != k ==> r[i] == items[i]
  {
    items[k := items[k].(quantity := items[k].quantity + delta)]
  }

  /** `addToCart`: add `q` to the line of `p`, or push a new line when there is none. */
  function AddLine(items: seq<Line>, p: ProductId, q: int): (r: seq<Line>)
    ensures HasLine(items, p) ==>
              && var k := FindLine(items, p);
              && |r| == |items| && r[k] == Line(p, items[k].quantity + q)
              && forall i :: 0 <= i < |items| && i != k ==> r[i] == items[i]
    ensures !HasLine(items, p) ==> r == items + [Line(p, q)]
  {
    var k := FindLine(items, p);
    if k > -1 then Bump(items, k, q) else items + [Line(p, q)]
  }

  /** `items.filter(i => i.productId !== p)`. */
  function RemoveLine(items: seq<Line>, p: ProductId): (r: seq<Line>)
    ensures |r| <= |items|
    ensures forall i :: 0 <= i < |r| ==> r[i].productId != p
  {
    if items == [] then []
    else
      var head := if items[0].productId == p then [] else [items[0]];
      var rest := RemoveLine(items[1..], p);
      assert forall i :: |head| <= i < |head + rest| ==> (head + rest)[i] == rest[i - |head|];
      head + rest
  }

  /** `decreaseCartItem` on the line at `k`: one less, and filtered out once at zero or below. */
  function DropOne(items: seq<Line>, k: nat): (r: seq<Line>)
    requires k < |items|
    ensures items[k].quantity > 1 ==> |r| == |items| && r[k] == Line(items[k].productId, items[k].quantity - 1)
    ensures items[k].quantity > 1 ==> forall j :: 0 <= j < |r| && j != k ==> r[j] == items[j]
    ensures items[k].quantity <= 1 ==> !HasLine(r, items[k].productId)
  {
    if items[k].quantity - 1 <= 0 then RemoveLine(items, items[k].productId) else Bump(items, k, -1)
  }

  // ---------------------------------------------------------------------
  // What the edits do to the reserved amounts

  lemma {:induction false} ReservedAppend(a: seq<Line>, b: seq<Line>, p: ProductId)
    ensures Reserved(a + b, p) == Reserved(a, p) + Reserved(b, p)
  {
    if a == [] {
      assert a + b == b;
    } else {
      assert (a + b)[1..] == a[1..] + b;
      ReservedAppend(a[1..], b, p);
    }
  }

  lemma ReservedSplit(items: seq<Line>, k: nat, p: ProductId)
    requires k < |items|
    ensures Reserved(items, p) == Reserved(items[..k], p) + Share(items[k], p) + Reserved(items[k + 1..], p)
  {
    assert items == items[..k] + ([items[k]] + items[k + 1..]);
    ReservedAppend(items[..k], [items[k]] + items[k + 1..], p);
    ReservedAppend([items[k]], items[k + 1..], p);
  }

  /** Replacing one line changes each product's reserved amount by that line's difference only. */
  lemma ReservedUpdate(items: seq<Line>, k: nat, l: Line, p: ProductId)
    requires k < |items|
    ensures Reserved(items[k := l], p) == Reserved(items, p) - Share(items[k], p) + Share(l, p)
  {
    var items' := items[k := l];
    ReservedSplit(items, k, p);
    ReservedSplit(items', k, p);
    assert items'[..k] == items[..k];
    assert items'[k + 1..] == items[k + 1..];
  }

  lemma {:induction false} ReservedAbsent(items: seq<Line>, p: ProductId)
    requires !HasLine(items, p)
    ensures Reserved(items, p) == 0
  {
    if items != [] {
      assert !HasLine(items[1..], p) by {
        forall i | 0 <= i < |items[1..]| ensures items[1..][i].productId != p {
          assert items[1..][i] == items[i + 1];
        }
      }
      ReservedAbsent(items[1..], p);
    }
  }

  /** With no duplicates, a product's reserved amount is the quantity of its one line. */
  lemma ReservedOfLine(items: seq<Line>, k: nat)
    requires NoDuplicates(items) && k < |items|
    ensures Reserved(items, items[k].productId) == items[k].quantity
  {
    var p := items[k].productId;
    ReservedSplit(items, k, p);
    ReservedAbsent(items[..k], p);
    var rest := items[k + 1..];
    assert !HasLine(rest, p) by {
      forall i | 0 <= i < |rest| ensures rest[i].productId != p {
        assert rest[i] == items[k + 1 + i];
      }
    }
    ReservedAbsent(rest, p);
  }

  lemma {:induction false} ReservedRemoveLine(items: seq<Line>, p: ProductId, q: ProductId)
    ensures Reserved(RemoveLine(items, p), q) == if q == p then 0 else Reserved(items, q)
  {
    if items != [] {
      var head := if items[0].productId == p then [] else [items[0]];
      ReservedAppend(head, RemoveLine(items[1..], p), q);
      ReservedRemoveLine(items[1..], p, q);
      if head != [] {
        assert head[1..] == [];
      }
    }
  }

  /** Adding `q` of `p` raises the reserved amount of `p` by exactly `q` and of no other product. */
  lemma AddLineReserves(items: seq<Line>, p: ProductId, q: int, r: ProductId)
    ensures Reserved(AddLine(items, p, q), r) == Reserved(items, r) + (if r == p then q else 0)
  {
    var k := FindLine(items, p);
    if k > -1 {
      ReservedUpdate(items, k, items[k].(quantity := items[k].quantity + q), r);
    } else {
      ReservedAppend(items, [Line(p, q)], r);
      assert [Line(p, q)][1..] == [];
    }
  }

  /** Dropping one unit lowers the reserved amount of that line's product by exactly one. */
  lemma DropOneReserves(items: seq<Line>, k: nat, r: ProductId)
    requires WellFormed(items) && k < |items|
    ensures Reserved(DropOne(items, k), r) == Reserved(items, r) - (if r == items[k].productId then 1 else 0)
  {
    var p := items[k].productId;
    if items[k].quantity - 1 <= 0 {
      ReservedRemoveLine(items, p, r);
      ReservedOfLine(items, k);
    } else {
      ReservedUpdate(items, k, items[k].(quantity := items[k].quantity - 1), r);
    }
  }

  // ---------------------------------------------------------------------
  // Shape of the edited lists

  /** The filter keeps every other line, in order, and drops every line of `p`. */
  lemma {:induction false} RemoveLineKeepsOthers(items: seq<Line>, p: ProductId)
    ensures !HasLine(RemoveLine(items, p), p)
    ensures forall l :: l in RemoveLine(items, p) <==> l in items && l.productId != p
  {
    if items != [] {
      RemoveLineKeepsOthers(items[1..], p);
      var head := if items[0].productId == p then [] else [items[0]];
      var rest := RemoveLine(items[1..], p);
      assert RemoveLine(items, p) == head + rest;
      forall l ensures l in head + rest <==> l in items && l.productId != p {
        assert l in items <==> l == items[0] || l in items[1..];
      }
      assert !HasLine(head + rest, p) by {
        forall i | 0 <= i < |head + rest| ensures (head + rest)[i].productId != p {
          assert (head + rest)[i] in head + rest;
        }
      }
    }
  }

  /** With no duplicates, filtering out the product of line `k` removes exactly that line. */
  lemma {:induction false} RemoveLineAt(items: seq<Line>, k: nat)
    requires NoDuplicates(items) && k < |items|
    ensures RemoveLine(items, items[k].productId) == items[..k] + items[k + 1..]
  {
    var p := items[k].productId;
    if k == 0 {
      assert !HasLine(items[1..], p) by {
        forall i | 0 <= i < |items[1..]| ensures items[1..][i].productId != p {
          assert items[1..][i] == items[i + 1];
        }
      }
      RemoveLineAbsent(items[1..], p);
    } else {
      assert NoDuplicates(items[1..]) by {
        forall i, j | 0 <= i < j < |items[1..]| ensures items[1..][i].productId != items[1..][j].productId {
          assert items[1..][i] == items[i + 1] && items[1..][j] == items[j + 1];
        }
      }
      assert items[1..][k - 1] == items[k];
      RemoveLineAt(items[1..], k - 1);
      assert items[1..][..k - 1] + items[1..][k..] == items[1..k] + items[k + 1..];
      assert items[..k] + items[k + 1..] == [items[0]] + (items[1..k] + items[k + 1..]);
    }
  }

  lemma {:induction false} RemoveLineAbsent(items: seq<Line>, p: ProductId)
    requires !HasLine(items, p)
    ensures RemoveLine(items, p) == items
  {
    if items != [] {
      assert !HasLine(items[1..], p) by {
        forall i | 0 <= i < |items[1..]| ensures items[1..][i].productId != p {
          assert items[1..][i] == items[i + 1];
        }
      }
      RemoveLineAbsent(items[1..], p);
      assert items == [items[0]] + items[1..];
    }
  }

  lemma RemoveLineWellFormed(items: seq<Line>, p: ProductId)
    requires WellFormed(items)
    ensures WellFormed(RemoveLine(items, p))
  {
    var k := FindLine(items, p);
    if k == -1 {
      RemoveLineAbsent(items, p);
    } else {
      RemoveLineAt(items, k);
      var r := items[..k] + items[k + 1..];
      forall i, j | 0 <= i < j < |r| ensures r[i].productId != r[j].productId {
        var i' := if i < k then i else i + 1;
        var j' := if j < k then j else j + 1;
        assert r[i] == items[i'] && r[j] == items[j'];
      }
      forall i | 0 <= i < |r| ensures r[i].quantity >= 1 {
        assert r[i] == items[if i < k then i else i + 1];
      }
    }
  }

  /**
   * Adding a positive amount keeps the list well formed and never makes a
   * second line for `p`: the list grows only when `p` had no line, and
   * afterwards it has one.
   */
  lemma AddLineWellFormed(items: seq<Line>, p: ProductId, q: int)
    requires WellFormed(items) && q > 0
    ensures WellFormed(AddLine(items, p, q))
    ensures HasLine(AddLine(items, p, q), p)
    ensures |AddLine(items, p, q)| == |items| + (if HasLine(items, p) then 0 else 1)
  {
    var r := AddLine(items, p, q);
    var k := FindLine(items, p);
    if k == -1 {
      assert r[|items|].productId == p;
    } else {
      assert r[k].productId == p;
    }
  }

  lemma DropOneWellFormed(items: seq<Line>, k: nat)
    requires WellFormed(items) && k < |items|
    ensures WellFormed(DropOne(items, k))
    ensures items[k].quantity == 1 ==> !HasLine(DropOne(items, k), items[k].productId)
    ensures items[k].quantity > 1 ==> DropOne(items, k)[k].quantity == items[k].quantity - 1
  {
    if items[k].quantity - 1 <= 0 {
      RemoveLineWellFormed(items, items[k].productId);
      RemoveLineKeepsOthers(items, items[k].productId);
    }
  }

  /** One more and then one less on the same line gives back the list. */
  lemma BumpThenDropOne(items: seq<Line>, k: nat)
    requires WellFormed(items) && k < |items|
    ensures DropOne(Bump(items, k, 1), k) == items
  {
    var b := Bump(items, k, 1);
    assert b[k].quantity - 1 == items[k].quantity >= 1;
    assert Bump(b, k, -1) == items;
  }
}
