/** The best-effort repair of auto-increment sequences (`fix_sequences`): for each
    table in a fixed list, ask the server for the largest id and, when it returned
    one, reset the table's sequence just above it. A failure on one table is
    swallowed and the routine goes on with the next. */
module SequenceRepair {
  import opened Values
  import opened Remote

  /** The tables whose sequences are repaired, in the order they are visited. */
  const Tables: seq<string> := ["event", "category", "area"]

  /** Python truthiness of `max_id_result.data`: a value came back and it is not 0. */
  function HasMaxId(reply: MaxIdReply): (b: bool)
    ensures b <==> reply.MaxIdData? && reply.data.Some? && Truthy(JNumber(reply.data.value as real))
  {
    reply.MaxIdData? && reply.data.Some? && reply.data.value != 0
  }

  /** The calls issued for one table: always the `get_max_id` probe, then
      `fix_sequence(table, max + 1)` when the probe returned a truthy maximum. */
  function TableCalls(table: string, reply: MaxIdReply): (r: seq<Call>)
    ensures 1 <= |r| <= 2 && r[0] == GetMaxId(table)
    ensures |r| == 2 <==> HasMaxId(reply)
    ensures |r| == 2 ==> r[1].FixSequence? && r[1].table == table && r[1].newVal == reply.data.value + 1
  {
    [GetMaxId(table)] + if HasMaxId(reply) then [FixSequence(table, reply.data.value + 1)] else []
  }

  /** The calls issued for `tables`, in order; `maxIdOf` gives each probe's outcome. */
  function RepairCalls(tables: seq<string>, maxIdOf: string -> MaxIdReply): (r: seq<Call>)
    ensures |tables| <= |r| <= 2 * |tables|
    ensures tables != [] ==> r[0] == GetMaxId(tables[0])
    decreases |tables|
  {
    if tables == [] then []
    else TableCalls(tables[0], maxIdOf(tables[0])) + RepairCalls(tables[1..], maxIdOf)
  }

  /** The tables probed with `get_max_id`, in the order of the calls. */
  function Probed(calls: seq<Call>): seq<string>
    decreases |calls|
  {
    if calls == [] then []
    else (if calls[0].GetMaxId? then [calls[0].table] else []) + Probed(calls[1..])
  }

  /** A stretch of calls without a `get_max_id` probes no table. */
  lemma {:induction false} NoProbes(calls: seq<Call>)
    requires forall c :: c in calls ==> !c.GetMaxId?
    ensures Probed(calls) == []
    decreases |calls|
  {
    if calls != [] {
      assert calls[0] in calls;
      assert forall c :: c in calls[1..] ==> c in calls;
      NoProbes(calls[1..]);
    }
  }

  lemma {:induction false} ProbedAppend(a: seq<Call>, b: seq<Call>)
    ensures Probed(a + b) == Probed(a) + Probed(b)
    decreases |a|
  {
    if a == [] {
      assert a + b == b;
    } else {
      assert (a + b)[0] == a[0];
      assert (a + b)[1..] == a[1..] + b;
      ProbedAppend(a[1..], b);
    }
  }

  /** Processing one more table appends that table's calls: the loop form. */
  lemma {:induction false} RepairCallsSnoc(tables: seq<string>, t: string, maxIdOf: string -> MaxIdReply)
    ensures RepairCalls(tables + [t], maxIdOf) == RepairCalls(tables, maxIdOf) + TableCalls(t, maxIdOf(t))
    decreases |tables|
  {
    if tables != [] {
      assert (tables + [t])[1..] == tables[1..] + [t];
      RepairCallsSnoc(tables[1..], t, maxIdOf);
    }
  }

  /** Every table is probed exactly once and in list order, whatever the probes return:
      a failing table never keeps the later ones from being visited. */
  lemma {:induction false} ProbesEveryTableInOrder(tables: seq<string>, maxIdOf: string -> MaxIdReply)
    ensures Probed(RepairCalls(tables, maxIdOf)) == tables
    decreases |tables|
  {
    if tables != [] {
      var t := tables[0];
      ProbedAppend(TableCalls(t, maxIdOf(t)), RepairCalls(tables[1..], maxIdOf));
      ProbesEveryTableInOrder(tables[1..], maxIdOf);
      assert Probed(TableCalls(t, maxIdOf(t))) == [t];
      assert tables == [t] + tables[1..];
    }
  }

  /** `fix_sequence(t, v)` is issued exactly when `t` is one of the tables, its probe
      returned a truthy maximum, and `v` is that maximum plus one. */
  lemma {:induction false} FixIssuedIff(tables: seq<string>, maxIdOf: string -> MaxIdReply, t: string, v: int)
    ensures FixSequence(t, v) in RepairCalls(tables, maxIdOf)
        <==> t in tables && HasMaxId(maxIdOf(t)) && v == maxIdOf(t).data.value + 1
    decreases |tables|
  {
    if tables != [] {
      FixIssuedIff(tables[1..], maxIdOf, t, v);
      assert t in tables <==> t == tables[0] || t in tables[1..];
    }
  }

  /** A probe that raised, returned null or returned 0 leads to no `fix_sequence`
      call for that table. */
  lemma NoFixWithoutMax(tables: seq<string>, maxIdOf: string -> MaxIdReply, t: string)
    requires maxIdOf(t) == MaxIdRaised || maxIdOf(t) == MaxIdData(None) || maxIdOf(t) == MaxIdData(Some(0))
    ensures forall v :: FixSequence(t, v) !in RepairCalls(tables, maxIdOf)
  {
    forall v ensures FixSequence(t, v) !in RepairCalls(tables, maxIdOf) {
      FixIssuedIff(tables, maxIdOf, t, v);
    }
  }

  /** The script's own list: `event`, then `category`, then `area`. */
  lemma ScriptOrder(maxIdOf: string -> MaxIdReply)
    ensures Probed(RepairCalls(Tables, maxIdOf)) == ["event", "category", "area"]
  {
    ProbesEveryTableInOrder(Tables, maxIdOf);
  }
}
