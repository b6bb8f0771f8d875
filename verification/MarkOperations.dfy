/** What the rules may do to a mark, apart from how its bits are laid out. */
module MarkOperations {
  import opened Routing

  /**
   * `with` replaces the agent's own field by a target's mark, `clear` empties it, `own` adds the
   * DNS ownership bit; `carries` and `unmarked` test the field.
   */
  datatype MarkOps<!W> = MarkOps(
    with: (W, RouteTarget) -> W,
    clear: W -> W,
    own: W -> W,
    carries: (W, RouteTarget) -> bool,
    unmarked: W -> bool)

  ghost predicate Lawful<W(!new)>(ops: MarkOps<W>) {
    && (forall w :: ops.unmarked(ops.clear(w)))
    && (forall w, t :: !ops.unmarked(ops.with(w, t)))
    && (forall w, t, u :: ops.carries(ops.with(w, t), u) <==> t == u)
    && (forall w, t :: ops.with(ops.clear(w), t) == ops.with(w, t))
    && (forall w, t, u :: ops.with(ops.with(w, t), u) == ops.with(w, u))
  }
}
