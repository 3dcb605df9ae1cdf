/** The user-plant registry of tuba_backend/src/server.js: create, list and delete of the
    plants a user owns, with the plant collection held in memory. */
module PlantRegistry {

  import opened Wrappers
  import opened Calendar
  import opened Sorting

  /** A stored plant with the fields of its schema; the optional texts may be absent. */
  datatype UserPlant = UserPlant(id: nat, userId: string, name: string,
                                 species: Option<string>, nickname: Option<string>,
                                 location: Option<string>, notes: Option<string>,
                                 createdAt: JsTime, updatedAt: JsTime)

  datatype PlantError = BadRequest

  /** The create route demands a truthy `userId` and `name`. */
  predicate ValidPlantRequest(userId: string, name: string) {
    userId != "" && name != ""
  }

  predicate RegistryInvariant(ps: seq<UserPlant>, nextId: nat) {
    && (forall i :: 0 <= i < |ps| ==> ps[i].id < nextId && ValidPlantRequest(ps[i].userId, ps[i].name))
    && (forall i, j :: 0 <= i < j < |ps| ==> ps[i].id != ps[j].id)
  }

  /** `Plant.find({ userId })`, in storage order. */
  function PlantsOf(ps: seq<UserPlant>, userId: string): (r: seq<UserPlant>)
    ensures forall p :: p in r <==> p in ps && p.userId == userId
  {
    if ps == [] then []
    else
      var rest := PlantsOf(ps[..|ps| - 1], userId);
      assert ps == ps[..|ps| - 1] + [ps[|ps| - 1]];
      if ps[|ps| - 1].userId == userId then rest + [ps[|ps| - 1]] else rest
  }

  /** The collection after `findByIdAndDelete(id)`: without the plant of that identity. */
  function WithoutPlant(ps: seq<UserPlant>, id: nat): (r: seq<UserPlant>)
    ensures forall p :: p in r <==> p in ps && p.id != id
  {
    if ps == [] then []
    else
      var rest := WithoutPlant(ps[..|ps| - 1], id);
      assert ps == ps[..|ps| - 1] + [ps[|ps| - 1]];
      if ps[|ps| - 1].id != id then rest + [ps[|ps| - 1]] else rest
  }

  /** Deleting an identity nobody has changes nothing. */
  lemma {:induction false} WithoutAbsentPlant(ps: seq<UserPlant>, id: nat)
    requires forall p :: p in ps ==> p.id != id
    ensures WithoutPlant(ps, id) == ps
  {
    if ps != [] {
      var init := ps[..|ps| - 1];
      forall p | p in init ensures p.id != id {
        assert p in ps;
      }
      WithoutAbsentPlant(init, id);
      assert ps == init + [ps[|ps| - 1]];
    }
  }

  /** Deleting twice is deleting once, so a repeated delete also reports success. */
  lemma WithoutPlantIdempotent(ps: seq<UserPlant>, id: nat)
    ensures WithoutPlant(WithoutPlant(ps, id), id) == WithoutPlant(ps, id)
  {
    WithoutAbsentPlant(WithoutPlant(ps, id), id);
  }

  /** Deleting keeps the registry invariant and keeps the order of the other plants. */
  lemma {:induction false} WithoutPlantKeepsInvariant(ps: seq<UserPlant>, nextId: nat, id: nat)
    requires RegistryInvariant(ps, nextId)
    ensures RegistryInvariant(WithoutPlant(ps, id), nextId)
  {
    if ps != [] {
      var init := ps[..|ps| - 1];
      assert RegistryInvariant(init, nextId);
      WithoutPlantKeepsInvariant(init, nextId, id);
      var rest := WithoutPlant(init, id);
      var last := ps[|ps| - 1];
      if last.id != id {
        var r := rest + [last];
        forall i, j | 0 <= i < j < |r| ensures r[i].id != r[j].id {
          if j == |r| - 1 {
            assert r[i] in rest;
            assert r[i] in init;
            var k :| 0 <= k < |init| && init[k] == r[i];
            assert ps[k] == r[i];
          }
        }
      }
    }
  }

  function CreationTime(p: UserPlant): int {
    p.createdAt
  }

  class Registry {
    var plants: seq<UserPlant>
    var nextId: nat

    ghost predicate Valid()
      reads this
    {
      RegistryInvariant(plants, nextId)
    }

    constructor ()
      ensures Valid() && plants == []
    {
      plants := [];
      nextId := 0;
    }

    /** `POST /api/plants`: a new plant with a fresh identity, created and updated now. */
    method Create(userId: string, name: string, species: Option<string>, nickname: Option<string>,
                  location: Option<string>, notes: Option<string>, now: JsTime)
      returns (r: Result<UserPlant, PlantError>)
      requires Valid()
      modifies this
      ensures Valid()
      ensures !ValidPlantRequest(userId, name) ==>
        r == Failure(BadRequest) && plants == old(plants) && nextId == old(nextId)
      ensures ValidPlantRequest(userId, name) ==>
        && r == Success(UserPlant(old(nextId), userId, name, species, nickname, location, notes, now, now))
        && plants == old(plants) + [r.value]
        && nextId == old(nextId) + 1
    {
      if userId == "" || name == "" {
        return Failure(BadRequest);
      }
      var p := UserPlant(nextId, userId, name, species, nickname, location, notes, now, now);
      plants := plants + [p];
      nextId := nextId + 1;
      return Success(p);
    }

    /** `GET /api/plants?userId=`: the user's plants, earliest created first. */
    method ListFor(userId: string) returns (r: Result<seq<UserPlant>, PlantError>)
      ensures userId == "" ==> r == Failure(BadRequest)
      ensures userId != "" ==> r.Success?
      ensures r.Success? ==>
        && (forall p :: p in r.value <==> p in plants && p.userId == userId)
        && multiset(r.value) == multiset(PlantsOf(plants, userId))
        && (forall i, j :: 0 <= i < j < |r.value| ==> r.value[i].createdAt <= r.value[j].createdAt)
    {
      if userId == "" {
        return Failure(BadRequest);
      }
      var acc: seq<UserPlant> := [];
      var n := 0;
      while n < |plants|
        invariant 0 <= n <= |plants|
        invariant acc == PlantsOf(plants[..n], userId)
      {
        assert plants[..n + 1][..n] == plants[..n];
        if plants[n].userId == userId {
          acc := acc + [plants[n]];
        }
        n := n + 1;
      }
      assert plants[..n] == plants;
      var sorted := SortBy(acc, CreationTime);
      SortByCorrect(acc, CreationTime);
      forall p ensures p in sorted <==> p in acc {
        assert p in sorted <==> p in multiset(sorted);
        assert p in acc <==> p in multiset(acc);
      }
      return Success(sorted);
    }

    /** `DELETE /api/plants/:id`: succeeds whether or not the identity exists. */
    method Delete(id: nat)
      requires Valid()
      modifies this
      ensures Valid() && nextId == old(nextId)
      ensures plants == WithoutPlant(old(plants), id)
    {
      var kept: seq<UserPlant> := [];
      var n := 0;
      while n < |plants|
        invariant 0 <= n <= |plants|
        invariant kept == WithoutPlant(plants[..n], id)
      {
        assert plants[..n + 1][..n] == plants[..n];
        if plants[n].id != id {
          kept := kept + [plants[n]];
        }
        n := n + 1;
      }
      assert plants[..n] == plants;
      WithoutPlantKeepsInvariant(plants, nextId, id);
      plants := kept;
    }
  }
}
