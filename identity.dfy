/**
 * Test identities: the `prefix + index` naming scheme shared by both benchmark
 * drivers (bench_conc.py and bench_fanout.py, `make_usernames`) and by the
 * seeding tool's user list.
 */
module Identity {
  import opened Decimal

  /** `make_usernames(prefix, count, start_index)`: `prefix + str(i)` for i in range(start, start + count). */
  function MakeUsernames(prefix: string, count: int, start: int): seq<string>
  {
    seq(if count > 0 then count else 0, i => prefix + IntToString(start + i))
  }

  /** Exactly `max(count, 0)` names, the i-th being `prefix + str(start + i)`, no two alike. */
  lemma UsernamesDistinct(prefix: string, count: int, start: int)
    ensures var names := MakeUsernames(prefix, count, start);
      && |names| == (if count > 0 then count else 0)
      && (forall i :: 0 <= i < |names| ==> names[i] == prefix + IntToString(start + i))
      && (forall i, j :: 0 <= i < j < |names| ==> names[i] != names[j])
  {
    var names := MakeUsernames(prefix, count, start);
    forall i, j | 0 <= i < j < |names|
      ensures names[i] != names[j]
    {
      if names[i] == names[j] {
        assert names[i][|prefix|..] == IntToString(start + i);
        assert names[j][|prefix|..] == IntToString(start + j);
        IntToStringInjective(start + i, start + j);
      }
    }
  }

  /** The names of a smaller run are the first names of a larger one. */
  lemma UsernamesPrefix(prefix: string, count: int, pool: int, start: int)
    requires count <= pool
    ensures MakeUsernames(prefix, count, start)
         == MakeUsernames(prefix, pool, start)[..if count > 0 then count else 0]
  {
  }
}
