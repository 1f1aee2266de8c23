/**
 * The static fish catalogue of src/data.rs: an insertion-ordered map from
 * fish id to fish, built once from four template records that are numbered
 * by their position, with read-only lookups over it.
 */
module Data {
  import opened Common
  import opened IndexMaps

  /** Rust's `u32`. */
  newtype u32 = x: int | 0 <= x < 0x1_0000_0000

  const U32_MAX: u32 := 0xFFFF_FFFF

  datatype FishId = FishId(value: u32)

  /** A weight in kilograms. The source holds an `f64`; the model only carries
      it from place to place and never computes with it. */
  datatype Weight = Kg(amount: real)

  datatype Fish = Fish(id: FishId, name: string, species: string, age: u32, weightKg: Weight)

  type Catalogue = IndexMap<FishId, Fish>

  /** The response `get_or_404` gives for an unknown id: status 404 naming the id. */
  datatype FishNotFound = FishNotFound(status: StatusCode, id: FishId)

  /** Every stored fish carries the id it is stored under. */
  ghost predicate IdsMatchKeys(c: Catalogue)
  {
    forall k :: k in c.entries ==> c.entries[k].id == k
  }

  // ---------------------------------------------------------------------------
  // The seed table
  // ---------------------------------------------------------------------------

  /** The template records, in declaration order; their ids are placeholders. */
  const Templates: seq<Fish> := [
    Fish(FishId(0), "Nemo", "Clownfish", 2, Kg(0.1)),
    Fish(FishId(0), "Dory", "Blue Tang", 5, Kg(0.3)),
    Fish(FishId(0), "Sam", "Sockeye Salmon", 5, Kg(5.2)),
    Fish(FishId(0), "Barry", "Great Barracuda", 11, Kg(8.3))
  ]

  /** The expected seed table: each template with its position as its id. */
  const SeededFish: seq<Fish> := seq(|Templates|, i requires 0 <= i < |Templates| => Templates[i].(id := FishId(i as u32)))

  /** `index as u32`: truncation of a `usize` to its low 32 bits. */
  function AsU32(index: nat): u32
  {
    (index % 0x1_0000_0000) as u32
  }

  /** `.enumerate().map(..).collect()`: the i-th record gets id `i as u32` and
      is inserted under that id, in order. */
  function Enumerate(templates: seq<Fish>): (c: Catalogue)
    ensures c.Valid()
    decreases |templates|
  {
    if templates == [] then Empty()
    else
      var i := |templates| - 1;
      var fish := templates[i].(id := FishId(AsU32(i)));
      Enumerate(templates[..i]).Insert(fish.id, fish)
  }

  /** `FISHES`. */
  function Fishes(): Catalogue
  {
    Enumerate(Templates)
  }

  /** Enumerating one more record inserts it, numbered by its position. */
  lemma EnumerateAppend(init: seq<Fish>, last: Fish)
    ensures Enumerate(init + [last]) ==
              Enumerate(init).Insert(FishId(AsU32(|init|)), last.(id := FishId(AsU32(|init|))))
  {
  }

  /** `c` stores record i of `templates`, with id i, under key i, with keys
      in record order; every other field of the record is kept. */
  ghost predicate NumberedByPosition(templates: seq<Fish>, c: Catalogue)
    requires |templates| <= 0x1_0000_0000
  {
    && |c.keys| == |templates|
    && forall i :: 0 <= i < |templates| ==>
         && c.keys[i] == FishId(i as u32)
         && FishId(i as u32) in c.entries
         && c.entries[FishId(i as u32)] == templates[i].(id := FishId(i as u32))
  }

  /** Enumerating fewer than 2^32 records numbers them by position. */
  lemma {:induction false} EnumerateNumbersByPosition(templates: seq<Fish>)
    requires |templates| <= 0x1_0000_0000
    ensures NumberedByPosition(templates, Enumerate(templates))
    ensures IdsMatchKeys(Enumerate(templates))
  {
    if templates != [] {
      var i := |templates| - 1;
      var init := templates[..i];
      assert templates == init + [templates[i]];
      EnumerateAppend(init, templates[i]);
      assert AsU32(i) == i as u32;
      EnumerateNumbersByPosition(init);
      InsertNextNumber(init, templates[i], Enumerate(init));
    }
  }

  /** The inductive step: inserting one more record under the next number
      extends a catalogue numbered by position. */
  lemma InsertNextNumber(init: seq<Fish>, last: Fish, c: Catalogue)
    requires |init| < 0x1_0000_0000
    requires c.Valid() && IdsMatchKeys(c) && NumberedByPosition(init, c)
    ensures var k := FishId(|init| as u32);
      var after := c.Insert(k, last.(id := k));
      NumberedByPosition(init + [last], after) && IdsMatchKeys(after)
  {
  }

  /** The seed table holds Nemo, Dory, Sam and Barry under keys 0, 1, 2, 3,
      each carrying its key as its id. */
  lemma SeedTable()
    ensures Fishes().Valid() && IdsMatchKeys(Fishes())
    ensures Fishes().keys == [FishId(0), FishId(1), FishId(2), FishId(3)]
    ensures |SeededFish| == 4
    ensures forall i :: 0 <= i < 4 ==> Fishes().entries[FishId(i as u32)] == SeededFish[i]
  {
    EnumerateNumbersByPosition(Templates);
    var c := Fishes();
    assert NumberedByPosition(Templates, c);
    assert c.keys[0] == FishId(0) && c.keys[1] == FishId(1);
    assert c.keys[2] == FishId(2) && c.keys[3] == FishId(3);
  }

  // ---------------------------------------------------------------------------
  // Store operations
  // ---------------------------------------------------------------------------

  /** `Iterator::max` over the key values: the greatest one, or nothing for no keys. */
  function MaxId(ids: seq<FishId>): (r: Option<u32>)
    ensures r.None? <==> ids == []
    ensures r.Some? ==> FishId(r.value) in ids
    ensures r.Some? ==> forall k :: k in ids ==> k.value <= r.value
  {
    if ids == [] then None
    else
      match MaxId(ids[1..])
      case None => Some(ids[0].value)
      case Some(m) => Some(if ids[0].value > m then ids[0].value else m)
  }

  /** `u32 + 1` without an overflow check, as a release build computes it. */
  function WrappingIncrement(x: u32): u32
  {
    ((x as int + 1) % 0x1_0000_0000) as u32
  }

  /** `Store::next_id`: one past the greatest key, or 0 for an empty catalogue. */
  function NextId(c: Catalogue): FishId
  {
    match MaxId(c.keys)
    case None => FishId(0)
    case Some(m) => FishId(WrappingIncrement(m))
  }

  /** `Store::all`: the stored fish, in insertion order. */
  function All(c: Catalogue): seq<Fish>
    requires c.Valid()
  {
    c.Values()
  }

  /** `Store::get_or_404`. */
  function GetOr404(c: Catalogue, id: FishId): (r: Result<Fish, FishNotFound>)
    ensures r.Ok? <==> id in c.entries
    ensures r.Ok? ==> r.value == c.entries[id]
    ensures r.Err? ==> r.error.status == NOT_FOUND && r.error.id == id
  {
    match c.Get(id)
    case Some(fish) => Ok(fish)
    case None => Err(FishNotFound(NOT_FOUND, id))
  }

  // ---------------------------------------------------------------------------
  // Properties
  // ---------------------------------------------------------------------------

  /** While every key is below `u32::MAX`, `next_id` is the least id above
      every key: it is 0 exactly when there are no keys, and otherwise one
      past a key that is present. So it is never already a key. */
  lemma NextIdIsFresh(c: Catalogue)
    requires c.Valid()
    requires forall k :: k in c.entries ==> k.value < U32_MAX
    ensures forall k :: k in c.entries ==> k.value < NextId(c).value
    ensures NextId(c) !in c.entries
    ensures NextId(c).value == 0 <==> c.entries == map[]
    ensures NextId(c).value != 0 ==> FishId(NextId(c).value - 1) in c.entries
  {
  }

  /** With `u32::MAX` in use as a key, the unchecked increment wraps to 0. */
  lemma NextIdWrapsAtMax(c: Catalogue)
    requires c.Valid()
    requires FishId(U32_MAX) in c.entries
    ensures NextId(c) == FishId(0)
  {
  }

  /** For the seed table, `next_id` is 4. */
  lemma SeedNextId()
    ensures NextId(Fishes()) == FishId(4)
  {
    SeedTable();
  }

  /** A successful lookup returns a fish whose id is the one asked for; an id
      that `next_id` hands out is not found. */
  lemma GetOr404ReturnsRequestedFish(c: Catalogue, id: FishId)
    requires c.Valid() && IdsMatchKeys(c)
    ensures GetOr404(c, id).Ok? ==> GetOr404(c, id).value.id == id
    ensures (forall k :: k in c.entries ==> k.value < U32_MAX) ==> GetOr404(c, NextId(c)).Err?
  {
  }

  /** `all` lists every stored fish once per key, in key order, and looking up
      the id of any listed fish gives that fish back. */
  lemma AllListsEveryFishInOrder(c: Catalogue)
    requires c.Valid() && IdsMatchKeys(c)
    ensures |All(c)| == |c.keys|
    ensures forall i :: 0 <= i < |c.keys| ==> All(c)[i] == c.entries[c.keys[i]]
    ensures forall i :: 0 <= i < |All(c)| ==> GetOr404(c, All(c)[i].id) == Ok(All(c)[i])
    ensures forall k :: k in c.entries ==> c.entries[k] in All(c)
  {
  }

  /** `all` over the seed table yields Nemo, Dory, Sam and Barry with ids 0
      to 3, in that order. */
  lemma SeedAll()
    ensures All(Fishes()) == SeededFish
  {
    SeedTable();
    var c := Fishes();
    var all := All(c);
    forall i | 0 <= i < 4
      ensures all[i] == SeededFish[i]
    {
      assert all[i] == c.entries[c.keys[i]];
    }
  }
}
