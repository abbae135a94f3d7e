/**
 * Farm pages and their URL slugs: `Farm.save` picks a slug for a farm that
 * has none, and the data migration `backfill_farm_slugs` does the same for
 * every farm stored with an empty slug. Both try `base`, then `base-2`,
 * `base-3`, … until no other farm holds the candidate. `slugify` is Django's
 * and is a parameter here.
 */
module Farms {
  import opened Wrappers
  import opened Text
  import opened Orm

  /** A farm row; `pk` is None until the farm is first saved. */
  datatype Farm = Farm(
    pk: Option<int>,
    farmerId: int,
    farmerUsername: string,
    name: string,
    slug: string,
    latitude: Option<real>,
    longitude: Option<real>)

  /** The slugs held by farms other than `pk`. */
  ghost function TakenSlugs(rows: seq<Farm>, pk: Option<int>): set<string> {
    set i | 0 <= i < |rows| && rows[i].pk != pk :: rows[i].slug
  }

  /** `Farm.objects.exclude(pk=pk).filter(slug=slug).exists()` */
  predicate SlugTaken(rows: seq<Farm>, pk: Option<int>, slug: string): (taken: bool)
    ensures taken <==> slug in TakenSlugs(rows, pk)
  {
    exists i :: 0 <= i < |rows| && rows[i].pk != pk && rows[i].slug == slug
  }

  /** `f"farm-{farmer_id}"` */
  function FallbackSlug(farmerId: int): (slug: string)
    ensures |slug| > 5 && slug[..5] == "farm-"
    ensures ':' !in slug[5..] && ',' !in slug[5..]
  {
    "farm-" + IntToString(farmerId)
  }

  /** Different farmers get different fallback slugs. */
  lemma FallbackSlugInjective(id1: int, id2: int)
    ensures FallbackSlug(id1) == FallbackSlug(id2) <==> id1 == id2
  {
    if FallbackSlug(id1) == FallbackSlug(id2) {
      assert FallbackSlug(id1)[5..] == IntToString(id1) && FallbackSlug(id2)[5..] == IntToString(id2);
      IntToStringInjective(id1, id2);
    }
  }

  /**
   * The slug tried at step `counter`: `base` (or the fallback when `base` is
   * empty) first, then `f"{base}-{counter}"`, built from `base` even when it
   * is empty.
   */
  function Candidate(base: string, farmerId: int, counter: nat): (slug: string)
    requires counter >= 1
    ensures slug != ""
  {
    if counter == 1 then (if base != "" then base else FallbackSlug(farmerId))
    else base + "-" + NatToString(counter)
  }

  /** The search never tries the same slug twice. */
  lemma CandidatesDistinct(base: string, farmerId: int, c1: nat, c2: nat)
    requires 1 <= c1 && 1 <= c2 && c1 != c2
    ensures Candidate(base, farmerId, c1) != Candidate(base, farmerId, c2)
  {
    if c1 >= 2 && c2 >= 2 {
      var s1, s2 := Candidate(base, farmerId, c1), Candidate(base, farmerId, c2);
      assert s1[|base| + 1..] == NatToString(c1) && s2[|base| + 1..] == NatToString(c2);
      NatToStringInjective(c1, c2);
    } else {
      var later := if c1 == 1 then c2 else c1;
      var s := Candidate(base, farmerId, later);
      if base == "" {
        assert s[0] == '-' && Candidate(base, farmerId, 1)[0] == 'f';
      } else {
        assert |s| > |base|;
      }
    }
  }

  /** `slug` is the first candidate no other farm holds. */
  ghost predicate FirstFreeSlug(rows: seq<Farm>, pk: Option<int>, base: string, farmerId: int, slug: string) {
    exists counter: nat :: && 1 <= counter && slug == Candidate(base, farmerId, counter)
                           && !SlugTaken(rows, pk, slug)
                           && forall c :: 1 <= c < counter ==> SlugTaken(rows, pk, Candidate(base, farmerId, c))
  }

  /**
   * The uniqueness loop shared by `Farm.save` and the migration: the first
   * candidate, in order, that no farm other than `pk` holds. It terminates
   * because candidates never repeat and the table holds finitely many slugs.
   */
  method FindFreeSlug(rows: seq<Farm>, pk: Option<int>, base: string, farmerId: int)
    returns (slug: string, counter: nat)
    ensures 1 <= counter && slug == Candidate(base, farmerId, counter)
    ensures !SlugTaken(rows, pk, slug)
    ensures forall c :: 1 <= c < counter ==> SlugTaken(rows, pk, Candidate(base, farmerId, c))
  {
    slug := if base != "" then base else FallbackSlug(farmerId);
    counter := 1;
    ghost var taken := TakenSlugs(rows, pk);
    ghost var tried: set<string> := {};
    while SlugTaken(rows, pk, slug)
      invariant 1 <= counter && slug == Candidate(base, farmerId, counter)
      invariant forall c :: 1 <= c < counter ==> SlugTaken(rows, pk, Candidate(base, farmerId, c))
      invariant tried <= taken
      invariant forall t :: t in tried ==> exists c :: 1 <= c < counter && t == Candidate(base, farmerId, c)
      decreases |taken - tried|
    {
      SearchStep(rows, pk, base, farmerId, counter, taken, tried);
      tried := tried + {slug};
      counter := counter + 1;
      slug := base + "-" + NatToString(counter);
    }
  }

  /** One unsuccessful try: the candidate is new, taken, and the search moves on to the next. */
  lemma SearchStep(rows: seq<Farm>, pk: Option<int>, base: string, farmerId: int, counter: nat,
                   taken: set<string>, tried: set<string>)
    requires 1 <= counter && taken == TakenSlugs(rows, pk) && tried <= taken
    requires forall c :: 1 <= c < counter ==> SlugTaken(rows, pk, Candidate(base, farmerId, c))
    requires forall t :: t in tried ==> exists c :: 1 <= c < counter && t == Candidate(base, farmerId, c)
    requires SlugTaken(rows, pk, Candidate(base, farmerId, counter))
    ensures var grown := tried + {Candidate(base, farmerId, counter)};
            && grown <= taken
            && |taken - grown| < |taken - tried|
            && (forall c :: 1 <= c < counter + 1 ==> SlugTaken(rows, pk, Candidate(base, farmerId, c)))
            && (forall t :: t in grown ==> exists c :: 1 <= c < counter + 1 && t == Candidate(base, farmerId, c))
  {
    var slug := Candidate(base, farmerId, counter);
    NotYetTried(base, farmerId, counter, tried);
    TriedGrows(taken, tried, slug);
    forall c | 1 <= c < counter + 1
      ensures SlugTaken(rows, pk, Candidate(base, farmerId, c))
    {
      if c == counter {
        assert Candidate(base, farmerId, c) == slug;
      }
    }
    forall t | t in tried + {slug}
      ensures exists c :: 1 <= c < counter + 1 && t == Candidate(base, farmerId, c)
    {
      if t == slug {
        assert 1 <= counter < counter + 1;
      }
    }
  }

  lemma NotYetTried(base: string, farmerId: int, counter: nat, tried: set<string>)
    requires 1 <= counter
    requires forall t :: t in tried ==> exists c :: 1 <= c < counter && t == Candidate(base, farmerId, c)
    ensures Candidate(base, farmerId, counter) !in tried
  {
    forall t | t in tried
      ensures t != Candidate(base, farmerId, counter)
    {
      var c :| 1 <= c < counter && t == Candidate(base, farmerId, c);
      CandidatesDistinct(base, farmerId, c, counter);
    }
  }

  lemma TriedGrows(taken: set<string>, tried: set<string>, s: string)
    requires tried <= taken && s in taken && s !in tried
    ensures tried + {s} <= taken
    ensures |taken - (tried + {s})| < |taken - tried|
  {
    assert taken - tried == (taken - (tried + {s})) + {s};
  }

  /** The base of `Farm.save`: `slugify(self.name or self.farmer.username)`. */
  function SaveBase(farm: Farm, slugify: string -> string): (base: string)
    ensures farm.name != "" ==> base == slugify(farm.name)
    ensures farm.name == "" ==> base == slugify(farm.farmerUsername)
  {
    slugify(if farm.name != "" then farm.name else farm.farmerUsername)
  }

  /** The base of the migration: `slugify(farm.name or farmer.username or f"farm-{farmer_id}")`. */
  function BackfillBase(farm: Farm, slugify: string -> string): (base: string)
    ensures farm.name != "" || farm.farmerUsername != "" ==> base == SaveBase(farm, slugify)
    ensures farm.name == "" && farm.farmerUsername == "" ==> base == slugify(FallbackSlug(farm.farmerId))
  {
    slugify(if farm.name != "" then farm.name
            else if farm.farmerUsername != "" then farm.farmerUsername
            else FallbackSlug(farm.farmerId))
  }

  function FarmPk(farm: Farm): Option<int> {
    farm.pk
  }

  /** `after` is `before` with a non-empty slug that is one of its candidates. */
  ghost predicate Backfilled(before: Farm, after: Farm, slugify: string -> string) {
    && after == before.(slug := after.slug)
    && after.slug != ""
    && exists c: nat :: 1 <= c && after.slug == Candidate(BackfillBase(before, slugify), before.farmerId, c)
  }

  /**
   * `order` lists every row position exactly once: the order in which the
   * migration's query hands out the farms (by `name` in the source).
   */
  predicate IsOrdering(order: seq<int>, n: int) {
    && (forall a :: 0 <= a < |order| ==> 0 <= order[a] < n)
    && (forall a, b :: 0 <= a < b < |order| ==> order[a] != order[b])
    && (forall j :: 0 <= j < n ==> j in order)
  }

  /**
   * The migration has handled the row positions in `done`: keys and the
   * other rows are untouched, farms with a slug keep it, and each farm it
   * gave a slug holds one no other row holds.
   */
  ghost predicate BackfilledOn(original: seq<Farm>, rows: seq<Farm>, done: seq<int>, slugify: string -> string) {
    && |rows| == |original|
    && (forall j :: 0 <= j < |rows| ==> rows[j].pk == original[j].pk)
    && (forall j :: 0 <= j < |rows| && j !in done ==> rows[j] == original[j])
    && (forall j :: 0 <= j < |rows| && j in done && original[j].slug != "" ==> rows[j] == original[j])
    && (forall j :: 0 <= j < |rows| && j in done && original[j].slug == "" ==> Backfilled(original[j], rows[j], slugify))
    && (forall j, k :: 0 <= j < |rows| && 0 <= k < |rows| && j in done && j != k && original[j].slug == "" ==>
          rows[j].slug != rows[k].slug)
  }

  /** Writing a free candidate slug into farm `p` adds `p` to the migration's progress. */
  lemma BackfillStep(original: seq<Farm>, rows: seq<Farm>, done: seq<int>, p: int, slugify: string -> string,
                     slug: string, counter: nat, nextPk: int)
    requires BackfilledOn(original, rows, done, slugify) && 0 <= p < |rows| && p !in done && rows[p].slug == ""
    requires KeysValid(rows, FarmPk, nextPk)
    requires 1 <= counter && slug == Candidate(BackfillBase(rows[p], slugify), rows[p].farmerId, counter)
    requires !SlugTaken(rows, rows[p].pk, slug)
    ensures BackfilledOn(original, rows[p := rows[p].(slug := slug)], done + [p], slugify)
    ensures KeysValid(rows[p := rows[p].(slug := slug)], FarmPk, nextPk)
  {
    var next := rows[p := rows[p].(slug := slug)];
    assert Backfilled(original[p], next[p], slugify);
    forall k | 0 <= k < |next| && k != p
      ensures next[k].slug != slug
    {
      assert rows[k].pk != rows[p].pk;
    }
  }

  /** A farm that already has a slug is left as it is. */
  lemma BackfillSkip(original: seq<Farm>, rows: seq<Farm>, done: seq<int>, p: int, slugify: string -> string)
    requires BackfilledOn(original, rows, done, slugify) && 0 <= p < |rows| && p !in done && rows[p].slug != ""
    ensures BackfilledOn(original, rows, done + [p], slugify)
  {
  }

  /** The farm table: every stored row has a distinct primary key below `nextPk`. */
  class FarmTable {
    var rows: seq<Farm>
    var nextPk: int

    ghost predicate Valid()
      reads this
    {
      KeysValid(rows, FarmPk, nextPk)
    }

    constructor ()
      ensures Valid() && rows == []
    {
      rows := [];
      nextPk := 1;
    }

    /**
     * The ORM write of `super().save()`: replace the row with the farm's key,
     * or insert the farm, under a new key when it has none.
     */
    method Persist(farm: Farm) returns (stored: Farm)
      requires Valid()
      modifies this
      ensures Valid()
      ensures stored == if farm.pk.Some? then farm else farm.(pk := Some(old(nextPk)))
      ensures rows == Upsert(old(rows), FarmPk, stored)
      ensures old(nextPk) <= nextPk && stored.pk.Some? && stored.pk.value < nextPk
    {
      stored := if farm.pk.Some? then farm else farm.(pk := Some(nextPk));
      var next := if nextPk <= stored.pk.value then stored.pk.value + 1 else nextPk;
      UpsertKeepsKeys(rows, FarmPk, stored, nextPk, next);
      rows := Upsert(rows, FarmPk, stored);
      nextPk := next;
    }

    /**
     * `Farm.save`: a farm without a slug gets the first free candidate built
     * from its name (or its farmer's username); a farm with a slug keeps it.
     * Then the farm is written.
     */
    method SaveFarm(farm: Farm, slugify: string -> string) returns (stored: Farm)
      requires Valid()
      modifies this
      ensures Valid()
      ensures farm.slug != "" ==> stored.slug == farm.slug
      ensures farm.slug == "" ==> FirstFreeSlug(old(rows), farm.pk, SaveBase(farm, slugify), farm.farmerId, stored.slug)
      ensures stored == farm.(slug := stored.slug, pk := stored.pk)
      ensures farm.pk.Some? ==> stored.pk == farm.pk
      ensures farm.slug == "" ==>
                forall i :: 0 <= i < |rows| && rows[i].pk != stored.pk ==> rows[i].slug != stored.slug
      ensures exists i :: 0 <= i < |rows| && rows[i] == stored
      ensures farm.pk.None? ==> stored.pk == Some(old(nextPk))
      ensures rows == Upsert(old(rows), FarmPk, stored)
    {
      var toWrite := farm;
      if farm.slug == "" {
        var base := SaveBase(farm, slugify);
        var slug, counter := FindFreeSlug(rows, farm.pk, base, farm.farmerId);
        toWrite := farm.(slug := slug);
      }
      ghost var before, beforeNext := rows, nextPk;
      stored := Persist(toWrite);
      UpsertKeepsKeys(before, FarmPk, stored, beforeNext, nextPk);
    }

    /**
     * `backfill_farm_slugs`: every farm stored with an empty slug, in the
     * query's `order`, gets the first candidate built from its name, its
     * farmer's username or its fallback that no other farm holds at that
     * moment; only the slug is written, and it is written before the next
     * farm is looked at.
     */
    method BackfillFarmSlugs(slugify: string -> string, order: seq<int>)
      requires Valid() && IsOrdering(order, |rows|)
      modifies this
      ensures Valid() && |rows| == |old(rows)| && nextPk == old(nextPk)
      ensures forall i :: 0 <= i < |rows| && old(rows)[i].slug != "" ==> rows[i] == old(rows)[i]
      ensures forall i :: 0 <= i < |rows| && old(rows)[i].slug == "" ==>
                && rows[i] == old(rows)[i].(slug := rows[i].slug)
                && rows[i].slug != ""
                && exists c: nat :: 1 <= c && rows[i].slug == Candidate(BackfillBase(old(rows)[i], slugify), old(rows)[i].farmerId, c)
      ensures forall i, j :: 0 <= i < |rows| && 0 <= j < |rows| && i != j && old(rows)[i].slug == "" ==>
                rows[i].slug != rows[j].slug
    {
      ghost var original := rows;
      var i := 0;
      while i < |order|
        invariant 0 <= i <= |order| && nextPk == old(nextPk)
        invariant Valid() && |rows| == |original|
        invariant BackfilledOn(original, rows, order[..i], slugify)
      {
        var p := order[i];
        assert p !in order[..i];
        assert order[..i + 1] == order[..i] + [p];
        var farm := rows[p];
        if farm.slug == "" {
          var base := BackfillBase(farm, slugify);
          var slug, counter := FindFreeSlug(rows, farm.pk, base, farm.farmerId);
          BackfillStep(original, rows, order[..i], p, slugify, slug, counter, nextPk);
          rows := rows[p := farm.(slug := slug)];
        } else {
          BackfillSkip(original, rows, order[..i], p, slugify);
        }
        i := i + 1;
      }
      assert order[..i] == order;
    }
  }
}
