/** The attire record shared by the settings store, the settings screen and the
    PlayFab avatar encoding: an id and whether the item is a base (a bird body)
    rather than clothing worn on top of it. */
module Attires {
  datatype Attire = Attire(id: string, base: bool)

  /** `attire.filter(a => a.base)`. */
  function Bases(attire: seq<Attire>): (r: seq<Attire>)
    ensures |r| <= |attire|
    ensures forall a :: a in r <==> a in attire && a.base
  {
    if attire == [] then []
    else if attire[0].base then [attire[0]] + Bases(attire[1..])
    else Bases(attire[1..])
  }

  /** `attire.filter(a => !a.base)`. */
  function Clothes(attire: seq<Attire>): (r: seq<Attire>)
    ensures |r| <= |attire|
    ensures forall a :: a in r <==> a in attire && !a.base
  {
    if attire == [] then []
    else if !attire[0].base then [attire[0]] + Clothes(attire[1..])
    else Clothes(attire[1..])
  }

  /** Filtering distributes over concatenation. */
  lemma {:induction false} BasesAppend(a: seq<Attire>, b: seq<Attire>)
    ensures Bases(a + b) == Bases(a) + Bases(b)
  {
    if a == [] {
      assert a + b == b;
    } else {
      assert (a + b)[0] == a[0] && (a + b)[1..] == a[1..] + b;
      BasesAppend(a[1..], b);
    }
  }

  lemma {:induction false} ClothesAppend(a: seq<Attire>, b: seq<Attire>)
    ensures Clothes(a + b) == Clothes(a) + Clothes(b)
  {
    if a == [] {
      assert a + b == b;
    } else {
      assert (a + b)[0] == a[0] && (a + b)[1..] == a[1..] + b;
      ClothesAppend(a[1..], b);
    }
  }

  /** Every item is a base or clothing, never both. */
  lemma {:induction false} BasesAndClothesPartition(attire: seq<Attire>)
    ensures |Bases(attire)| + |Clothes(attire)| == |attire|
  {
    if attire != [] {
      BasesAndClothesPartition(attire[1..]);
    }
  }

  /** Filtering is idempotent: the clothes of the clothes are the clothes. */
  lemma {:induction false} ClothesOfClothes(attire: seq<Attire>)
    ensures Clothes(Clothes(attire)) == Clothes(attire)
    ensures Bases(Clothes(attire)) == []
  {
    if attire != [] {
      ClothesOfClothes(attire[1..]);
      if !attire[0].base {
        assert ([attire[0]] + Clothes(attire[1..]))[1..] == Clothes(attire[1..]);
      }
    }
  }

  /** The attire a valid profile wears: exactly one base. */
  predicate OneBase(attire: seq<Attire>)
  {
    |Bases(attire)| == 1
  }
}
