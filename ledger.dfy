/** The daily entry ledger of tuba_backend/src/server.js, with the entry collection held
    in memory: the upsert keyed on (userId, plantId, dayKey), listing, today's entry,
    patch and delete. Record identities are fresh naturals; time is a parameter. */
module EntryLedger {

  import opened Wrappers
  import opened Calendar
  import opened DayKey
  import opened Sorting

  /** A stored entry; `id` is its identity, `createdAt`/`updatedAt` the schema's timestamps. */
  datatype Entry = Entry(id: nat, userId: string, plantId: string,
                         waterAmount: nat, fertilizerAmount: nat,
                         date: JsTime, dayKey: string,
                         createdAt: JsTime, updatedAt: JsTime)

  datatype ApiError = BadRequest | NotFound

  predicate HasTriple(e: Entry, userId: string, plantId: string, dayKey: string) {
    e.userId == userId && e.plantId == plantId && e.dayKey == dayKey
  }

  /** The unique index on (userId, plantId, dayKey). */
  predicate KeysUnique(es: seq<Entry>) {
    forall i, j :: 0 <= i < j < |es| ==> !HasTriple(es[j], es[i].userId, es[i].plantId, es[i].dayKey)
  }

  /** Identities are distinct and below the next identity to hand out. */
  predicate IdsFresh(es: seq<Entry>, nextId: nat) {
    && (forall i :: 0 <= i < |es| ==> es[i].id < nextId)
    && (forall i, j :: 0 <= i < j < |es| ==> es[i].id != es[j].id)
  }

  /** Every stored entry names a user and a plant, since the upsert rejects empty ones. */
  predicate Owned(es: seq<Entry>) {
    forall i :: 0 <= i < |es| ==> es[i].userId != "" && es[i].plantId != ""
  }

  predicate LedgerInvariant(es: seq<Entry>, nextId: nat) {
    KeysUnique(es) && IdsFresh(es, nextId) && Owned(es)
  }

  /** Position of the entry with this key (the filter of `findOneAndUpdate`). */
  function KeyIndex(es: seq<Entry>, userId: string, plantId: string, dayKey: string): (r: Option<nat>)
    ensures r.Some? ==> r.value < |es| && HasTriple(es[r.value], userId, plantId, dayKey)
    ensures r.Some? ==> forall j :: 0 <= j < r.value ==> !HasTriple(es[j], userId, plantId, dayKey)
    ensures r.None? <==> forall j :: 0 <= j < |es| ==> !HasTriple(es[j], userId, plantId, dayKey)
  {
    if es == [] then None
    else if HasTriple(es[0], userId, plantId, dayKey) then Some(0)
    else match KeyIndex(es[1..], userId, plantId, dayKey)
      case Some(i) => Some(i + 1)
      case None => None
  }

  /** Position of the entry with this identity. */
  function IdIndex(es: seq<Entry>, id: nat): (r: Option<nat>)
    ensures r.Some? ==> r.value < |es| && es[r.value].id == id
    ensures r.Some? ==> forall j :: 0 <= j < r.value ==> es[j].id != id
    ensures r.None? <==> forall j :: 0 <= j < |es| ==> es[j].id != id
  {
    if es == [] then None
    else if es[0].id == id then Some(0)
    else match IdIndex(es[1..], id)
      case Some(i) => Some(i + 1)
      case None => None
  }

  /** The route's required-field check: `userId` and `plantId` truthy, both amounts not
      null or undefined (0 is accepted). It coincides with the schema's required fields. */
  predicate ValidEntryRequest(userId: string, plantId: string, waterAmount: Option<nat>, fertilizerAmount: Option<nat>) {
    MeetsSchema(userId, plantId, waterAmount, fertilizerAmount)
  }

  /** `date ? new Date(date) : new Date()`. */
  function EffectiveDate(date: Option<JsTime>, now: JsTime): JsTime {
    if date.Some? then date.value else now
  }

  /** The record an upsert returns: the matching entry with new amounts, date and update
      time, or a new entry with a fresh identity. */
  function UpsertRecord(es: seq<Entry>, nextId: nat, userId: string, plantId: string,
                        water: nat, fert: nat, t: JsTime, k: string, now: JsTime): Entry
  {
    match KeyIndex(es, userId, plantId, k)
    case Some(i) => es[i].(waterAmount := water, fertilizerAmount := fert, date := t, updatedAt := now)
    case None => Entry(nextId, userId, plantId, water, fert, t, k, now, now)
  }

  /** The collection after an upsert: the match replaced in place, or the new record appended. */
  function Upserted(es: seq<Entry>, nextId: nat, userId: string, plantId: string,
                    water: nat, fert: nat, t: JsTime, k: string, now: JsTime): seq<Entry>
  {
    var rec := UpsertRecord(es, nextId, userId, plantId, water, fert, t, k, now);
    match KeyIndex(es, userId, plantId, k)
    case Some(i) => es[i := rec]
    case None => es + [rec]
  }

  /** An upsert keeps the ledger invariant when it hands out identity `nextId`. */
  lemma UpsertKeepsInvariant(es: seq<Entry>, nextId: nat, userId: string, plantId: string,
                             water: nat, fert: nat, t: JsTime, k: string, now: JsTime)
    requires LedgerInvariant(es, nextId) && userId != "" && plantId != ""
    ensures LedgerInvariant(Upserted(es, nextId, userId, plantId, water, fert, t, k, now), nextId + 1)
  {
    var es' := Upserted(es, nextId, userId, plantId, water, fert, t, k, now);
    var rec := UpsertRecord(es, nextId, userId, plantId, water, fert, t, k, now);
    match KeyIndex(es, userId, plantId, k)
    case Some(i) =>
      forall a, b | 0 <= a < b < |es'|
        ensures !HasTriple(es'[b], es'[a].userId, es'[a].plantId, es'[a].dayKey)
      {
        assert HasTriple(es'[a], es[a].userId, es[a].plantId, es[a].dayKey);
        assert HasTriple(es'[b], es[b].userId, es[b].plantId, es[b].dayKey);
      }
    case None =>
  }

  /** After an upsert exactly one entry has the key: the returned record, carrying the new
      amounts, date and update time. A match keeps its identity and creation time; otherwise
      the record is new, with identity `nextId`, created now. */
  lemma UpsertLeavesOneRecord(es: seq<Entry>, nextId: nat, userId: string, plantId: string,
                              water: nat, fert: nat, t: JsTime, k: string, now: JsTime)
    requires KeysUnique(es)
    ensures var es' := Upserted(es, nextId, userId, plantId, water, fert, t, k, now);
      var rec := UpsertRecord(es, nextId, userId, plantId, water, fert, t, k, now);
      && rec in es'
      && HasTriple(rec, userId, plantId, k)
      && rec.waterAmount == water && rec.fertilizerAmount == fert && rec.date == t && rec.updatedAt == now
      && (forall e :: e in es' && HasTriple(e, userId, plantId, k) ==> e == rec)
      && (KeyIndex(es, userId, plantId, k).Some? ==>
            var i := KeyIndex(es, userId, plantId, k).value;
            rec.id == es[i].id && rec.createdAt == es[i].createdAt)
      && (KeyIndex(es, userId, plantId, k).None? ==> rec.id == nextId && rec.createdAt == now)
  {
    var es' := Upserted(es, nextId, userId, plantId, water, fert, t, k, now);
    var rec := UpsertRecord(es, nextId, userId, plantId, water, fert, t, k, now);
    match KeyIndex(es, userId, plantId, k)
    case Some(i) =>
      assert es'[i] == rec;
      forall e | e in es' && HasTriple(e, userId, plantId, k)
        ensures e == rec
      {
        var j :| 0 <= j < |es'| && es'[j] == e;
        assert j == i;
      }
    case None =>
      assert es'[|es|] == rec;
  }

  /** An upsert touches no entry with another key and adds nothing but its record: one more
      entry when nothing matched, as many as before otherwise. */
  lemma UpsertFrame(es: seq<Entry>, nextId: nat, userId: string, plantId: string,
                    water: nat, fert: nat, t: JsTime, k: string, now: JsTime)
    ensures var es' := Upserted(es, nextId, userId, plantId, water, fert, t, k, now);
      var rec := UpsertRecord(es, nextId, userId, plantId, water, fert, t, k, now);
      && (forall e :: e in es && !HasTriple(e, userId, plantId, k) ==> e in es')
      && (forall e :: e in es' ==> e == rec || e in es)
      && |es'| == if KeyIndex(es, userId, plantId, k).Some? then |es| else |es| + 1
  {
    var es' := Upserted(es, nextId, userId, plantId, water, fert, t, k, now);
    match KeyIndex(es, userId, plantId, k)
    case Some(i) =>
      forall e | e in es && !HasTriple(e, userId, plantId, k)
        ensures e in es'
      {
        var j :| 0 <= j < |es| && es[j] == e;
        assert es'[j] == e;
      }
      forall e | e in es'
        ensures e == es'[i] || e in es
      {
        var j :| 0 <= j < |es'| && es'[j] == e;
        if j != i { assert es[j] == e; }
      }
    case None =>
  }

  /** Two upserts for the same user and plant with the same day key leave one record for
      that day, holding the second call's amounts, under the first record's identity. */
  lemma SameDayUpsertsOverwrite(es: seq<Entry>, nextId: nat, userId: string, plantId: string, k: string,
                                w1: nat, f1: nat, t1: JsTime, now1: JsTime,
                                w2: nat, f2: nat, t2: JsTime, now2: JsTime)
    requires LedgerInvariant(es, nextId) && userId != "" && plantId != ""
    ensures var es1 := Upserted(es, nextId, userId, plantId, w1, f1, t1, k, now1);
      var rec1 := UpsertRecord(es, nextId, userId, plantId, w1, f1, t1, k, now1);
      var es2 := Upserted(es1, nextId + 1, userId, plantId, w2, f2, t2, k, now2);
      var rec2 := UpsertRecord(es1, nextId + 1, userId, plantId, w2, f2, t2, k, now2);
      && |es2| == |es1|
      && rec2.id == rec1.id && rec2.waterAmount == w2 && rec2.fertilizerAmount == f2
      && (forall e :: e in es2 && HasTriple(e, userId, plantId, k) ==> e == rec2)
  {
    UpsertKeepsInvariant(es, nextId, userId, plantId, w1, f1, t1, k, now1);
    UpsertLeavesOneRecord(es, nextId, userId, plantId, w1, f1, t1, k, now1);
    var es1 := Upserted(es, nextId, userId, plantId, w1, f1, t1, k, now1);
    var rec1 := UpsertRecord(es, nextId, userId, plantId, w1, f1, t1, k, now1);
    UpsertLeavesOneRecord(es1, nextId + 1, userId, plantId, w2, f2, t2, k, now2);
    UpsertFrame(es1, nextId + 1, userId, plantId, w2, f2, t2, k, now2);
    var i := KeyIndex(es1, userId, plantId, k);
    var j :| 0 <= j < |es1| && es1[j] == rec1;
    assert i.Some? && es1[i.value] == rec1;
  }

  /** Upserts under different day keys are not merged: each day keeps its own record. */
  lemma DifferentDayUpsertsStaySeparate(es: seq<Entry>, nextId: nat, userId: string, plantId: string,
                                        w1: nat, f1: nat, t1: JsTime, k1: string, now1: JsTime,
                                        w2: nat, f2: nat, t2: JsTime, k2: string, now2: JsTime)
    requires LedgerInvariant(es, nextId) && userId != "" && plantId != ""
    requires k1 != k2
    ensures var es1 := Upserted(es, nextId, userId, plantId, w1, f1, t1, k1, now1);
      var rec1 := UpsertRecord(es, nextId, userId, plantId, w1, f1, t1, k1, now1);
      var es2 := Upserted(es1, nextId + 1, userId, plantId, w2, f2, t2, k2, now2);
      var rec2 := UpsertRecord(es1, nextId + 1, userId, plantId, w2, f2, t2, k2, now2);
      && rec1 in es2 && rec2 in es2 && rec1 != rec2
      && rec1.waterAmount == w1 && rec2.waterAmount == w2
  {
    UpsertKeepsInvariant(es, nextId, userId, plantId, w1, f1, t1, k1, now1);
    UpsertLeavesOneRecord(es, nextId, userId, plantId, w1, f1, t1, k1, now1);
    var es1 := Upserted(es, nextId, userId, plantId, w1, f1, t1, k1, now1);
    UpsertLeavesOneRecord(es1, nextId + 1, userId, plantId, w2, f2, t2, k2, now2);
    UpsertFrame(es1, nextId + 1, userId, plantId, w2, f2, t2, k2, now2);
  }

  /** `findByIdAndUpdate` with the fields the patch route sets: amounts that are not null,
      a date that is truthy, and the update time. The day key is not recomputed. */
  function Patched(e: Entry, water: Option<nat>, fert: Option<nat>, date: Option<JsTime>, now: JsTime): (r: Entry)
    ensures r.id == e.id && r.userId == e.userId && r.plantId == e.plantId
    ensures r.dayKey == e.dayKey && r.createdAt == e.createdAt && r.updatedAt == now
    ensures r.waterAmount == if water.Some? then water.value else e.waterAmount
    ensures r.fertilizerAmount == if fert.Some? then fert.value else e.fertilizerAmount
    ensures r.date == if date.Some? then date.value else e.date
  {
    e.(waterAmount := if water.Some? then water.value else e.waterAmount,
       fertilizerAmount := if fert.Some? then fert.value else e.fertilizerAmount,
       date := if date.Some? then date.value else e.date,
       updatedAt := now)
  }

  /** Patching one entry keeps the ledger invariant and changes no other entry. */
  lemma PatchCorrect(es: seq<Entry>, nextId: nat, i: nat, water: Option<nat>, fert: Option<nat>,
                     date: Option<JsTime>, now: JsTime)
    requires LedgerInvariant(es, nextId) && i < |es|
    ensures LedgerInvariant(es[i := Patched(es[i], water, fert, date, now)], nextId)
  {
    var es' := es[i := Patched(es[i], water, fert, date, now)];
    forall a, b | 0 <= a < b < |es'|
      ensures !HasTriple(es'[b], es'[a].userId, es'[a].plantId, es'[a].dayKey)
    {
      assert HasTriple(es'[a], es[a].userId, es[a].plantId, es[a].dayKey);
      assert HasTriple(es'[b], es[b].userId, es[b].plantId, es[b].dayKey);
    }
  }

  /** The collection after deleting the entry at position `i`: the others, in their order. */
  function Removed(es: seq<Entry>, i: nat): (r: seq<Entry>)
    requires i < |es|
    ensures |r| == |es| - 1
    ensures forall a :: 0 <= a < |r| ==> r[a] == es[if a < i then a else a + 1]
  {
    es[..i] + es[i + 1..]
  }

  /** Deleting keeps the invariant. */
  lemma RemoveKeepsInvariant(es: seq<Entry>, nextId: nat, i: nat)
    requires LedgerInvariant(es, nextId) && i < |es|
    ensures LedgerInvariant(Removed(es, i), nextId)
  {
  }

  /** Deleting removes exactly that record, once, and no other. */
  lemma RemoveTakesOutOne(es: seq<Entry>, nextId: nat, i: nat)
    requires IdsFresh(es, nextId) && i < |es|
    ensures multiset(Removed(es, i)) + multiset{es[i]} == multiset(es)
    ensures es[i] !in Removed(es, i)
  {
    var r := Removed(es, i);
    assert es == es[..i] + [es[i]] + es[i + 1..];
    forall e | e in r ensures e.id != es[i].id {
      var a :| 0 <= a < |r| && r[a] == e;
      assert r[a] == es[if a < i then a else a + 1];
    }
  }

  /** The list route's filter: the user's entries with `from <= date <= to`, each bound optional. */
  predicate InListRange(e: Entry, userId: string, from: Option<JsTime>, to: Option<JsTime>) {
    e.userId == userId && (from.Some? ==> e.date >= from.value) && (to.Some? ==> e.date <= to.value)
  }

  function ListMatches(es: seq<Entry>, userId: string, from: Option<JsTime>, to: Option<JsTime>): (r: seq<Entry>)
    ensures forall e :: e in r <==> e in es && InListRange(e, userId, from, to)
  {
    if es == [] then []
    else
      var rest := ListMatches(es[..|es| - 1], userId, from, to);
      assert es == es[..|es| - 1] + [es[|es| - 1]];
      if InListRange(es[|es| - 1], userId, from, to) then rest + [es[|es| - 1]] else rest
  }

  /** Sort key for `sort({ date: -1 })`. */
  function DateDescending(e: Entry): int {
    -e.date
  }

  /** The today route's filter: the user and the day key, not the plant. */
  predicate OnDay(e: Entry, userId: string, dayKey: string) {
    e.userId == userId && e.dayKey == dayKey
  }

  class Ledger {
    var entries: seq<Entry>
    var nextId: nat

    ghost predicate Valid()
      reads this
    {
      LedgerInvariant(entries, nextId)
    }

    constructor ()
      ensures Valid() && entries == []
    {
      entries := [];
      nextId := 0;
    }

    method FindByKey(userId: string, plantId: string, dayKey: string) returns (r: Option<nat>)
      ensures r == KeyIndex(entries, userId, plantId, dayKey)
    {
      var n := 0;
      while n < |entries|
        invariant 0 <= n <= |entries|
        invariant forall j :: 0 <= j < n ==> !HasTriple(entries[j], userId, plantId, dayKey)
      {
        if HasTriple(entries[n], userId, plantId, dayKey) {
          var k := KeyIndex(entries, userId, plantId, dayKey);
          assert k.Some? && !(k.value < n) && !(n < k.value);
          return Some(n);
        }
        n := n + 1;
      }
      return None;
    }

    method FindById(id: nat) returns (r: Option<nat>)
      ensures r == IdIndex(entries, id)
    {
      var n := 0;
      while n < |entries|
        invariant 0 <= n <= |entries|
        invariant forall j :: 0 <= j < n ==> entries[j].id != id
      {
        if entries[n].id == id {
          var k := IdIndex(entries, id);
          assert k.Some? && !(k.value < n) && !(n < k.value);
          return Some(n);
        }
        n := n + 1;
      }
      return None;
    }

    /** `POST /api/entries`. */
    method Upsert(userId: string, plantId: string, waterAmount: Option<nat>, fertilizerAmount: Option<nat>,
                  date: Option<JsTime>, now: JsTime) returns (r: Result<Entry, ApiError>)
      requires Valid()
      modifies this
      ensures Valid()
      ensures !ValidEntryRequest(userId, plantId, waterAmount, fertilizerAmount) ==>
        r == Failure(BadRequest) && entries == old(entries) && nextId == old(nextId)
      ensures ValidEntryRequest(userId, plantId, waterAmount, fertilizerAmount) ==>
        var t := EffectiveDate(date, now);
        && r == Success(UpsertRecord(old(entries), old(nextId), userId, plantId,
                                     waterAmount.value, fertilizerAmount.value, t, IsoDayKey(t), now))
        && entries == Upserted(old(entries), old(nextId), userId, plantId,
                               waterAmount.value, fertilizerAmount.value, t, IsoDayKey(t), now)
        && nextId == old(nextId) + 1
    {
      if userId == "" || plantId == "" || waterAmount.None? || fertilizerAmount.None? {
        return Failure(BadRequest);
      }
      var t := if date.Some? then date.value else now;
      var dayKey := IsoDayKey(t);
      UpsertKeepsInvariant(entries, nextId, userId, plantId, waterAmount.value, fertilizerAmount.value, t, dayKey, now);
      var found := FindByKey(userId, plantId, dayKey);
      var rec: Entry;
      if found.Some? {
        rec := entries[found.value].(waterAmount := waterAmount.value,
                                     fertilizerAmount := fertilizerAmount.value,
                                     date := t, updatedAt := now);
        entries := entries[found.value := rec];
      } else {
        rec := Entry(nextId, userId, plantId, waterAmount.value, fertilizerAmount.value, t, dayKey, now, now);
        entries := entries + [rec];
      }
      nextId := nextId + 1;
      return Success(rec);
    }

    /** `GET /api/entries/:userId`: the user's entries in the date range, latest first. */
    method List(userId: string, from: Option<JsTime>, to: Option<JsTime>) returns (r: seq<Entry>)
      ensures forall e :: e in r <==> e in entries && InListRange(e, userId, from, to)
      ensures multiset(r) == multiset(ListMatches(entries, userId, from, to))
      ensures forall i, j :: 0 <= i < j < |r| ==> r[i].date >= r[j].date
    {
      var acc: seq<Entry> := [];
      var n := 0;
      while n < |entries|
        invariant 0 <= n <= |entries|
        invariant acc == ListMatches(entries[..n], userId, from, to)
      {
        assert entries[..n + 1][..n] == entries[..n];
        if InListRange(entries[n], userId, from, to) {
          acc := acc + [entries[n]];
        }
        n := n + 1;
      }
      assert entries[..n] == entries;
      r := SortBy(acc, DateDescending);
      SortByCorrect(acc, DateDescending);
      forall e ensures e in r <==> e in acc {
        assert e in r <==> e in multiset(r);
        assert e in acc <==> e in multiset(acc);
      }
    }

    method FindOnDay(userId: string, dayKey: string) returns (r: Option<Entry>)
      ensures r.Some? ==> r.value in entries && OnDay(r.value, userId, dayKey)
      ensures r.None? <==> forall e :: e in entries ==> !OnDay(e, userId, dayKey)
    {
      var n := 0;
      while n < |entries|
        invariant 0 <= n <= |entries|
        invariant forall j :: 0 <= j < n ==> !OnDay(entries[j], userId, dayKey)
      {
        if OnDay(entries[n], userId, dayKey) {
          return Some(entries[n]);
        }
        n := n + 1;
      }
      forall e | e in entries ensures !OnDay(e, userId, dayKey) {
        var j :| 0 <= j < |entries| && entries[j] == e;
      }
      return None;
    }

    /** `GET /api/entries/:userId/today`: some entry of the user whose day key is today's,
        whatever its plant, or null when there is none. */
    method Today(userId: string, now: JsTime) returns (r: Option<Entry>)
      ensures r.Some? ==> r.value in entries && OnDay(r.value, userId, IsoDayKey(now))
      ensures r.None? <==> forall e :: e in entries ==> !OnDay(e, userId, IsoDayKey(now))
    {
      r := FindOnDay(userId, IsoDayKey(now));
    }

    /** `PATCH /api/entries/:id`. */
    method Patch(id: nat, waterAmount: Option<nat>, fertilizerAmount: Option<nat>,
                 date: Option<JsTime>, now: JsTime) returns (r: Result<Entry, ApiError>)
      requires Valid()
      modifies this
      ensures Valid() && nextId == old(nextId)
      ensures IdIndex(old(entries), id).None? ==> r == Failure(NotFound) && entries == old(entries)
      ensures IdIndex(old(entries), id).Some? ==>
        var i := IdIndex(old(entries), id).value;
        var e := Patched(old(entries)[i], waterAmount, fertilizerAmount, date, now);
        r == Success(e) && entries == old(entries)[i := e]
    {
      var found := FindById(id);
      if found.None? {
        return Failure(NotFound);
      }
      var i := found.value;
      PatchCorrect(entries, nextId, i, waterAmount, fertilizerAmount, date, now);
      var e := entries[i];
      if waterAmount.Some? { e := e.(waterAmount := waterAmount.value); }
      if fertilizerAmount.Some? { e := e.(fertilizerAmount := fertilizerAmount.value); }
      if date.Some? { e := e.(date := date.value); }
      e := e.(updatedAt := now);
      entries := entries[i := e];
      return Success(e);
    }

    /** `DELETE /api/entries/:id`: not found when no entry has the identity. */
    method Delete(id: nat) returns (r: Result<(), ApiError>)
      requires Valid()
      modifies this
      ensures Valid() && nextId == old(nextId)
      ensures IdIndex(old(entries), id).None? ==> r == Failure(NotFound) && entries == old(entries)
      ensures IdIndex(old(entries), id).Some? ==>
        r == Success(()) && entries == Removed(old(entries), IdIndex(old(entries), id).value)
    {
      var found := FindById(id);
      if found.None? {
        return Failure(NotFound);
      }
      RemoveKeepsInvariant(entries, nextId, found.value);
      entries := Removed(entries, found.value);
      return Success(());
    }
  }
}
