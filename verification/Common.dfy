/** Types and small functions several components share. */
module Common {
  datatype Option<+T> = None | Some(value: T)

  type Byte = b: int | 0 <= b < 256

  /** An agent and one of its models. */
  datatype CandidateId = CandidateId(agent: string, model: string)

  function MapGet<K, V>(m: map<K, V>, k: K): Option<V> {
    if k in m then Some(m[k]) else None
  }

  /** The part of an agent name before its first `@`. */
  function BaseName(s: string): string {
    if s == [] || s[0] == '@' then [] else [s[0]] + BaseName(s[1..])
  }

  /** A seat `base@account` has its base, and a name without `@` is its own. */
  lemma {:induction false} BaseNameOfSeat(base: string, account: string)
    requires '@' !in base
    ensures BaseName(base) == base && BaseName(base + "@" + account) == base
  {
    var seat := base + "@" + account;
    if base == [] {
      assert seat[0] == '@';
    } else {
      assert seat[1..] == base[1..] + "@" + account;
      BaseNameOfSeat(base[1..], account);
    }
  }
}
