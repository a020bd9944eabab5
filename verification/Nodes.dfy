/** Search nodes. A node lives at an address of the node pool; -1 is the null pointer. */
module Nodes {

  const NULL := -1

  datatype Node<S> = Node(state: S, g: int, h: int, f: int, parent: int, next: int) {

    /** Re-parents a node, as a relaxed edge does. */
    function Update(newParent: int, newG: int, newH: int): Node<S>
    {
      this.(parent := newParent, g := newG, h := newH, f := newG + newH)
    }
  }

  /** Node `a` has the least f-score in `s`. */
  ghost predicate Least<S>(mem: map<int, Node<S>>, s: set<int>, a: int)
  {
    s <= mem.Keys && a in s && forall m :: m in s ==> mem[a].f <= mem[m].f
  }
}
