/**
 * The part of the host's scene tree the container works on: node kinds,
 * the ordered child lists, and each control's mouse filter, which is the
 * only thing updated in place here.
 */
module Scene {
  import opened Wrappers

  /** A node is a scrollbar (itself a kind of control), another control, or not a control at all. */
  datatype Kind = ControlNode | ScrollBarNode | OtherNode

  predicate IsControl(k: Kind) {
    k == ControlNode || k == ScrollBarNode
  }

  /** A child that may serve as the container's content: a control that is not a scrollbar. */
  predicate IsContent(k: Kind) {
    IsControl(k) && k != ScrollBarNode
  }

  datatype MouseFilter = Stop | Pass | Ignore

  /**
   * A scene tree held as an arena: node `i` has kind `kinds[i]`, its
   * children in order `children[i]`, and its mouse filter `filter[i]`.
   * A child's index is greater than its parent's, so the tree has no cycles.
   */
  class SceneTree {
    const kinds: seq<Kind>
    const children: seq<seq<nat>>
    const filter: array<MouseFilter>

    predicate WellFormed() {
      |children| == |kinds| == filter.Length &&
      forall p, k :: 0 <= p < |children| && 0 <= k < |children[p]| ==> p < children[p][k] < |kinds|
    }

    constructor (kinds: seq<Kind>, children: seq<seq<nat>>, filters: seq<MouseFilter>)
      requires |children| == |kinds| == |filters|
      requires forall p, k :: 0 <= p < |children| && 0 <= k < |children[p]| ==> p < children[p][k] < |kinds|
      ensures WellFormed() && fresh(filter)
      ensures this.kinds == kinds && this.children == children && filter[..] == filters
    {
      this.kinds := kinds;
      this.children := children;
      this.filter := new MouseFilter[|filters|](i requires 0 <= i < |filters| => filters[i]);
    }

    /**
     * The nodes below `p`: every descendant, or, when `controlsOnly`, every
     * node reached from `p` through a chain of controls (the walk does not
     * go below a child that is not a control).
     */
    function Below(p: nat, controlsOnly: bool): set<nat>
      requires WellFormed() && p < |kinds|
      decreases |kinds| - p, 1, 0
    {
      Among(p, |children[p]|, controlsOnly)
    }

    /** The nodes `Below` finds through the first `k` children of `p`. */
    function Among(p: nat, k: nat, controlsOnly: bool): set<nat>
      requires WellFormed() && p < |kinds| && k <= |children[p]|
      decreases |kinds| - p, 0, k
    {
      if k == 0 then {}
      else
        var c := children[p][k - 1];
        Among(p, k - 1, controlsOnly)
          + (if !controlsOnly || IsControl(kinds[c]) then {c} + Below(c, controlsOnly) else {})
    }

    /** The engine's ancestry test: `a` is a strict ancestor of `d`. */
    predicate IsAncestorOf(a: nat, d: nat)
      requires WellFormed() && a < |kinds|
    {
      d in Below(a, false)
    }

    /** Everything below `p` lies after `p` in the arena. */
    lemma {:induction false} BelowAfter(p: nat, controlsOnly: bool)
      requires WellFormed() && p < |kinds|
      ensures forall i :: i in Below(p, controlsOnly) ==> p < i < |kinds|
      decreases |kinds| - p, 1
    {
      AmongAfter(p, |children[p]|, controlsOnly);
    }

    lemma {:induction false} AmongAfter(p: nat, k: nat, controlsOnly: bool)
      requires WellFormed() && p < |kinds| && k <= |children[p]|
      ensures forall i :: i in Among(p, k, controlsOnly) ==> p < i < |kinds|
      decreases |kinds| - p, 0, k
    {
      if k > 0 {
        var c := children[p][k - 1];
        AmongAfter(p, k - 1, controlsOnly);
        BelowAfter(c, controlsOnly);
      }
    }

    /** The walk through controls reaches only controls. */
    lemma {:induction false} BelowThroughControlsAreControls(p: nat)
      requires WellFormed() && p < |kinds|
      ensures forall i :: i in Below(p, true) ==> i < |kinds| && IsControl(kinds[i])
      decreases |kinds| - p, 1
    {
      AmongThroughControlsAreControls(p, |children[p]|);
    }

    lemma {:induction false} AmongThroughControlsAreControls(p: nat, k: nat)
      requires WellFormed() && p < |kinds| && k <= |children[p]|
      ensures forall i :: i in Among(p, k, true) ==> i < |kinds| && IsControl(kinds[i])
      decreases |kinds| - p, 0, k
    {
      if k > 0 {
        AmongThroughControlsAreControls(p, k - 1);
        BelowThroughControlsAreControls(children[p][k - 1]);
      }
    }

    /** A child of `p` that the walk may enter, and everything below it, is found among the first `k` children once `k` has passed it. */
    lemma {:induction false} AmongHasChild(p: nat, k: nat, j: nat, controlsOnly: bool)
      requires WellFormed() && p < |kinds| && j < k <= |children[p]|
      requires !controlsOnly || IsControl(kinds[children[p][j]])
      ensures children[p][j] in Among(p, k, controlsOnly)
      ensures Below(children[p][j], controlsOnly) <= Among(p, k, controlsOnly)
    {
      if j < k - 1 {
        AmongHasChild(p, k - 1, j, controlsOnly);
      }
    }

    /**
     * `Below` is closed: every control child of `p`, and every control
     * child of a node already reached, is reached too.
     */
    lemma {:induction false} BelowClosed(p: nat, q: nat, j: nat)
      requires WellFormed() && p < |kinds|
      requires q == p || q in Below(p, true)
      requires q < |kinds| && j < |children[q]| && IsControl(kinds[children[q][j]])
      ensures children[q][j] in Below(p, true)
      decreases |kinds| - p
    {
      if q == p {
        AmongHasChild(p, |children[p]|, j, true);
      } else {
        BelowInAmong(p, |children[p]|, q);
        var k :| 0 <= k < |children[p]| && IsControl(kinds[children[p][k]])
                 && (q == children[p][k] || q in Below(children[p][k], true));
        var c := children[p][k];
        BelowAfter(p, true);
        BelowClosed(c, q, j);
        AmongHasChild(p, |children[p]|, k, true);
      }
    }

    /** A node found among the first `k` children is one of them, or lies below one of them. */
    lemma {:induction false} BelowInAmong(p: nat, k: nat, i: nat)
      requires WellFormed() && p < |kinds| && k <= |children[p]|
      requires i in Among(p, k, true)
      ensures exists j :: 0 <= j < k && IsControl(kinds[children[p][j]])
                && (i == children[p][j] || i in Below(children[p][j], true))
    {
      var c := children[p][k - 1];
      if i in Among(p, k - 1, true) {
        BelowInAmong(p, k - 1, i);
        var j :| 0 <= j < k - 1 && IsControl(kinds[children[p][j]])
                 && (i == children[p][j] || i in Below(children[p][j], true));
        assert 0 <= j < k;
      } else {
        assert 0 <= k - 1 < k && IsControl(kinds[children[p][k - 1]]);
      }
    }

    /** The filters after the pass from `p`: Pass on every control reached through controls, the rest untouched. */
    function PassApplied(f: seq<MouseFilter>, p: nat): (r: seq<MouseFilter>)
      requires WellFormed() && p < |kinds| && |f| == |kinds|
      ensures |r| == |f|
      ensures forall i :: 0 <= i < |f| ==> r[i] == (if i in Below(p, true) then Pass else f[i])
    {
      seq(|f|, i requires 0 <= i < |f| => if i in Below(p, true) then Pass else f[i])
    }

    /** The pass is safe to repeat: a second pass changes nothing. */
    lemma PassAppliedIdempotent(f: seq<MouseFilter>, p: nat)
      requires WellFormed() && p < |kinds| && |f| == |kinds|
      ensures PassApplied(PassApplied(f, p), p) == PassApplied(f, p)
    {
    }

    /**
     * Sets the mouse filter of every control child of `parent` to Pass and
     * descends into those that have children; children that are not
     * controls are neither changed nor descended into.
     */
    method RecursiveSetMouseFilterPass(parent: nat)
      requires WellFormed() && parent < |kinds|
      modifies filter
      ensures filter[..] == PassApplied(old(filter[..]), parent)
      decreases |kinds| - parent
    {
      var kids := children[parent];
      for k := 0 to |kids|
        invariant forall i :: 0 <= i < filter.Length ==>
          filter[i] == (if i in Among(parent, k, true) then Pass else old(filter[i]))
      {
        var c := kids[k];
        assert Among(parent, k + 1, true)
            == Among(parent, k, true) + (if IsControl(kinds[c]) then {c} + Below(c, true) else {});
        if IsControl(kinds[c]) {
          filter[c] := Pass;
          if |children[c]| != 0 {
            BelowAfter(c, true);
            RecursiveSetMouseFilterPass(c);
          } else {
            assert Below(c, true) == {};
          }
        }
      }
    }

    /**
     * The content child among `kids`: the position of the first one that is
     * a control and not a scrollbar, or None when there is none.
     */
    function FirstContentAmong(kids: seq<nat>): (r: Option<nat>)
      requires forall j :: 0 <= j < |kids| ==> kids[j] < |kinds|
      ensures r.Some? ==> r.value < |kids| && IsContent(kinds[kids[r.value]])
      ensures r.Some? ==> forall j :: 0 <= j < r.value ==> !IsContent(kinds[kids[j]])
      ensures r.None? ==> forall j :: 0 <= j < |kids| ==> !IsContent(kinds[kids[j]])
    {
      if kids == [] then None
      else if IsContent(kinds[kids[0]]) then Some(0)
      else
        match FirstContentAmong(kids[1..])
        case None => None
        case Some(j) => Some(j + 1)
    }
  }
}
