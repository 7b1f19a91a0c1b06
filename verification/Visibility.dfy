/** Which rule numbers a Match call sees, and in which order (ruleMeta in concurrent.go, begin and visible). */
module Visibility {

  /** From which version on and until which a rule number is visible, and its order key. */
  datatype Meta = Meta(from: nat, until: nat, order: nat)

  /** The numbers ReplaceRule created or retired; all others are always visible and ordered by number. */
  type RuleMeta = map<nat, Meta>

  /** metaOrder: the position of the identifier of rule n in the results. */
  function OrderIn(meta: RuleMeta, n: nat): nat {
    if n in meta then meta[n].order else n
  }

  predicate VisibleIn(meta: RuleMeta, version: nat, n: nat) {
    n in meta ==> meta[n].from <= version && (meta[n].until == 0 || version < meta[n].until)
  }

  /** What a Match call loads before its traversal. */
  datatype View = View(version: nat, limit: nat, removed: set<nat>, meta: RuleMeta) {
    predicate Visible(n: nat) {
      n < limit && n !in removed && VisibleIn(meta, version, n)
    }

    function Order(n: nat): nat {
      OrderIn(meta, n)
    }
  }
}
