/** Which device is charged: the first of its name on the node, the slices taken in the order of their names. */
module UsagePlaces {
  import opened Options
  import opened StringOrder
  import opened UsageModel

  /** a comes before b on its node: in an earlier slice, or earlier in the same one. */
  predicate Before(a: Address, b: Address) {
    if a.slice == b.slice then a.index < b.index else Below(a.slice, b.slice)
  }

  predicate Ordered(places: seq<Address>) {
    forall i, j | 0 <= i < j < |places| :: Before(places[i], places[j])
  }

  lemma {:induction false} PlacesOrdered(node: string, slices: NodeLayout, names: seq<string>)
    requires forall s | s in names :: s in slices
    requires StrictlyAscending(names)
    ensures Ordered(Places(node, slices, names))
  {
    hide Below;
    if names != [] {
      var n := |names| - 1;
      PlacesOrdered(node, slices, names[..n]);
      var earlier := Places(node, slices, names[..n]);
      forall i | 0 <= i < |earlier| ensures Below(earlier[i].slice, names[n]) && earlier[i].slice != names[n] {
        assert earlier[i] in earlier;
        var k :| 0 <= k < n && names[..n][k] == earlier[i].slice;
        assert names[k] == earlier[i].slice;
      }
    }
  }

  lemma {:induction false} PlacesComplete(node: string, slices: NodeLayout, names: seq<string>, a: Address)
    requires forall s | s in names :: s in slices
    requires a.node == node && a.slice in names && a.index < |slices[a.slice]|
    ensures a in Places(node, slices, names)
  {
    var n := |names| - 1;
    assert names == names[..n] + [names[n]];
    if a.slice == names[n] {
      var last := seq(|slices[names[n]]|, i requires 0 <= i < |slices[names[n]]| => Address(node, names[n], i));
      assert last[a.index] == a;
    } else {
      PlacesComplete(node, slices, names[..n], a);
    }
  }

  predicate NamedIn(slices: NodeLayout, a: Address, device: string) {
    a.slice in slices && a.index < |slices[a.slice]| && slices[a.slice][a.index].name == device
  }

  /** Place k is the first with the name. */
  predicate FirstAt(slices: NodeLayout, places: seq<Address>, device: string, k: nat) {
    k < |places| && NamedIn(slices, places[k], device) && forall l | 0 <= l < k :: !NamedIn(slices, places[l], device)
  }

  lemma {:induction false} FirstNamedMeaning(slices: NodeLayout, places: seq<Address>, device: string)
    requires forall a | a in places :: a.slice in slices && a.index < |slices[a.slice]|
    ensures match FirstNamed(slices, places, device) {
      case None => forall a | a in places :: !NamedIn(slices, a, device)
      case Some(a) => exists k: nat :: FirstAt(slices, places, device, k) && places[k] == a
    }
  {
    if places != [] {
      assert places == [places[0]] + places[1..];
      assert NamedIn(slices, places[0], device) <==> slices[places[0].slice][places[0].index].name == device;
      hide NamedIn;
      var rest := places[1..];
      FirstNamedMeaning(slices, rest, device);
      if NamedIn(slices, places[0], device) {
        assert FirstAt(slices, places, device, 0);
      } else if FirstNamed(slices, rest, device).Some? {
        var k: nat :| FirstAt(slices, rest, device, k) && rest[k] == FirstNamed(slices, rest, device).value;
        assert forall l | 1 <= l < k + 1 :: places[l] == rest[l - 1];
        assert FirstAt(slices, places, device, k + 1);
      }
    }
  }

  lemma BeforeAntisymmetric(a: Address, b: Address)
    requires a.node == b.node && (a == b || Before(a, b)) && (b == a || Before(b, a))
    ensures a == b
  {
    if a.slice != b.slice { BelowAntisymmetric(a.slice, b.slice); }
  }

  predicate Named(layout: Layout, node: string, device: string, a: Address) {
    a.node == node && InLayout(layout, a) && InfoAt(layout, a).name == device
  }

  /** A device is charged for a name exactly if it has the name and comes before every other that has it. */
  lemma TargetIff(layout: Layout, node: string, device: string, a: Address)
    ensures Target(layout, node, device) == Some(a) <==>
      && Named(layout, node, device, a)
      && forall b | Named(layout, node, device, b) && b != a :: Before(a, b)
  {
    hide Below, Before, Sorted, Places, FirstNamed;
    if node in layout {
      var slices := layout[node];
      var names := Sorted(slices.Keys);
      var places := DevicePlaces(node, slices);
      SortedAscending(slices.Keys);
      PlacesOrdered(node, slices, names);
      FirstNamedMeaning(slices, places, device);
      forall b | Named(layout, node, device, b) ensures b in places { PlacesComplete(node, slices, names, b); }
      var t := Target(layout, node, device);
      if t.Some? {
        var k: nat :| FirstAt(slices, places, device, k) && places[k] == t.value;
        forall b | Named(layout, node, device, b) && b != t.value ensures Before(t.value, b) {
          var l :| 0 <= l < |places| && places[l] == b;
        }
        if Named(layout, node, device, a) && forall b | Named(layout, node, device, b) && b != a :: Before(a, b) {
          assert Named(layout, node, device, t.value);
          BeforeAntisymmetric(a, t.value);
        }
      }
    }
  }
}
