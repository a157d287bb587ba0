/** What an object says under a name: its members by decoded name and value. */
module Members {
  import opened Options
  import opened Json
  import Strings

  predicate NamedAt(ms: seq<Member>, i: nat, name: string)
    requires i < |ms|
  {
    Strings.Unescape(ms[i].name) == Some(name)
  }

  /** Some member of this decoded name has this value. */
  predicate Holds(ms: seq<Member>, name: string, v: Text) {
    exists i | 0 <= i < |ms| :: NamedAt(ms, i, name) && ms[i].value == v
  }

  /** No member has this decoded name. */
  predicate Lacks(ms: seq<Member>, name: string) {
    forall i | 0 <= i < |ms| :: !NamedAt(ms, i, name)
  }

  predicate Spells(v: Text, s: string) { v.Str? && Strings.Unescape(v.body) == Some(s) }

  /** Some member of this decoded name is a string that decodes to s. */
  predicate HoldsString(ms: seq<Member>, name: string, s: string) {
    exists i | 0 <= i < |ms| :: NamedAt(ms, i, name) && Spells(ms[i].value, s)
  }
}
