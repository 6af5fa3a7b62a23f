/** A labelled directed multigraph, as a `networkx.MultiDiGraph` whose every edge has a
    `"label"`. */
module Graphs {
  import opened Collections

  /** The nodes in the graph's iteration order and the edges as (source, label, target)
      triples, in iteration order; parallel edges may repeat a triple. */
  datatype Graph<N, L> = Graph(nodes: seq<N>, edges: seq<(N, L, N)>) {

    /** Nodes are listed once and every edge joins two nodes of the graph. */
    ghost predicate Valid() {
      && Distinct(nodes)
      && forall e :: e in edges ==> e.0 in nodes && e.2 in nodes
    }
  }
}
