/**
 * The dataset wrapper used by SHACL-DS validation: it backs the data
 * dataset's default graph up as the named graph `shds:default`, installs the
 * graph under validation as the default graph, and later restores the
 * default graph from the backup.
 *
 * A dataset is a map from graph names to triple sets. The default graph
 * always exists in the original; here a missing default entry reads as the
 * empty graph.
 */
module DatasetWrapperGraph {
  import opened Rdf
  import VocabularyDs

  /** The name under which the default graph is backed up. */
  const DefaultBackup := Named(VocabularyDs.TargetGraphDefault)

  /** The triples of graph `k`; the empty set for a graph that is not there. */
  function GraphOf(graphs: map<GraphKey, set<Triple>>, k: GraphKey): set<Triple>
  {
    if k in graphs then graphs[k] else {}
  }

  /** The dataset after the backup step: unchanged when `shds:default` is
      already there, otherwise extended by `shds:default` holding the
      default graph's triples. */
  function AddDefaultAsNamed(graphs: map<GraphKey, set<Triple>>): (r: map<GraphKey, set<Triple>>)
    ensures DefaultBackup in r
    ensures DefaultBackup in graphs ==> r == graphs
    ensures DefaultBackup !in graphs ==> r[DefaultBackup] == GraphOf(graphs, DefaultGraph)
    ensures forall k :: k != DefaultBackup ==> (k in r <==> k in graphs) && GraphOf(r, k) == GraphOf(graphs, k)
  {
    if DefaultBackup in graphs then graphs
    else graphs[DefaultBackup := GraphOf(graphs, DefaultGraph)]
  }

  /** The dataset with its default graph replaced by `triples`. */
  function SetDefault(graphs: map<GraphKey, set<Triple>>, triples: set<Triple>): (r: map<GraphKey, set<Triple>>)
    ensures GraphOf(r, DefaultGraph) == triples
    ensures forall k :: k != DefaultGraph ==> (k in r <==> k in graphs) && GraphOf(r, k) == GraphOf(graphs, k)
  {
    graphs[DefaultGraph := triples]
  }

  /** The dataset with its default graph replaced by the backup's triples. */
  function ResetDefault(graphs: map<GraphKey, set<Triple>>): (r: map<GraphKey, set<Triple>>)
    requires DefaultBackup in graphs
    ensures GraphOf(r, DefaultGraph) == graphs[DefaultBackup]
    ensures forall k :: k != DefaultGraph ==> (k in r <==> k in graphs) && GraphOf(r, k) == GraphOf(graphs, k)
  {
    SetDefault(graphs, graphs[DefaultBackup])
  }

  /** Round trip: when `shds:default` was absent, constructing a wrapper
      (backup, then installing any graph) and resetting gives back the
      original default graph; the only other change is the new backup. */
  lemma ConstructThenReset(graphs: map<GraphKey, set<Triple>>, installed: set<Triple>)
    requires DefaultBackup !in graphs
    ensures var after := ResetDefault(SetDefault(AddDefaultAsNamed(graphs), installed));
            GraphOf(after, DefaultGraph) == GraphOf(graphs, DefaultGraph)
            && after == graphs[DefaultGraph := GraphOf(graphs, DefaultGraph)]
                              [DefaultBackup := GraphOf(graphs, DefaultGraph)]
  {
    var d := GraphOf(graphs, DefaultGraph);
    var after := ResetDefault(SetDefault(AddDefaultAsNamed(graphs), installed));
    var expected := graphs[DefaultGraph := d][DefaultBackup := d];
    assert DefaultGraph != DefaultBackup;
    assert forall k :: k in after <==> k in expected;
    forall k | k in after ensures after[k] == expected[k] {
      assert GraphOf(after, k) == GraphOf(expected, k);
    }
  }

  /** When `shds:default` already existed, the reset installs that graph,
      not the default graph found at construction. */
  lemma ConstructThenResetWithBackup(graphs: map<GraphKey, set<Triple>>, installed: set<Triple>)
    requires DefaultBackup in graphs
    ensures GraphOf(ResetDefault(SetDefault(AddDefaultAsNamed(graphs), installed)), DefaultGraph)
            == graphs[DefaultBackup]
  {
    assert DefaultGraph != DefaultBackup;
  }

  /** Removing the default graph and adding `triples` in its place is
      replacing it. */
  lemma SwapDefault(before: map<GraphKey, set<Triple>>, after: map<GraphKey, set<Triple>>,
                    triples: set<Triple>)
    requires after == (before - {DefaultGraph})[DefaultGraph := triples]
    ensures after == before[DefaultGraph := triples]
  {
    assert forall k :: k in after <==> k in before[DefaultGraph := triples];
  }

  /** An in-memory dataset: a map from graph names to their triples, updated
      in place. */
  class InMemoryDataset {
    var graphs: map<GraphKey, set<Triple>>

    constructor(graphs: map<GraphKey, set<Triple>>)
      ensures this.graphs == graphs
    {
      this.graphs := graphs;
    }

    predicate HasGraph(k: GraphKey)
      reads this
    {
      k in graphs
    }

    /** Adds a graph, merging it into a graph of the same name. */
    method AddGraph(k: GraphKey, triples: set<Triple>)
      modifies this
      ensures graphs == old(graphs)[k := GraphOf(old(graphs), k) + triples]
    {
      graphs := graphs[k := GraphOf(graphs, k) + triples];
    }

    method RemoveGraph(k: GraphKey)
      modifies this
      ensures graphs == old(graphs) - {k}
    {
      graphs := graphs - {k};
    }
  }

  /** A fresh graph holding `triples`, asserted one at a time. */
  method CopyGraph(triples: set<Triple>) returns (g: Graph)
    ensures fresh(g) && g.triples == triples
  {
    g := new Graph();
    var rest := triples;
    while rest != {}
      invariant rest <= triples
      invariant g.triples == triples - rest
      decreases rest
    {
      var t :| t in rest;
      g.Assert(t);
      rest := rest - {t};
    }
  }

  /** A graph standing for one graph of a dataset while the dataset's default
      graph is swapped for it. */
  class DatasetWrapperGraph {
    const dataset: InMemoryDataset
    var triples: set<Triple>

    /** Wraps `dataset`, backing its default graph up first. */
    constructor(dataset: InMemoryDataset)
      modifies dataset
      ensures this.dataset == dataset && triples == {}
      ensures dataset.graphs == AddDefaultAsNamed(old(dataset.graphs))
    {
      this.dataset := dataset;
      triples := {};
      new;
      AddDefaultAsNamedGraph();
    }

    /** Wraps the graph named `graphName` (read after the backup step) and
        installs it as the default graph. The graph must exist. */
    constructor FromGraphName(dataset: InMemoryDataset, graphName: GraphKey)
      requires graphName == DefaultGraph || graphName == DefaultBackup || graphName in dataset.graphs
      modifies dataset
      ensures this.dataset == dataset
      ensures triples == GraphOf(AddDefaultAsNamed(old(dataset.graphs)), graphName)
      ensures dataset.graphs == SetDefault(AddDefaultAsNamed(old(dataset.graphs)), triples)
    {
      this.dataset := dataset;
      triples := {};
      new;
      AddDefaultAsNamedGraph();
      triples := triples + GraphOf(dataset.graphs, graphName);
      SetAsDefaultGraph();
    }

    /** Wraps a copy of `graph` and installs it as the default graph. */
    constructor FromGraph(dataset: InMemoryDataset, graph: Graph)
      modifies dataset
      ensures this.dataset == dataset
      ensures triples == graph.triples
      ensures dataset.graphs == SetDefault(AddDefaultAsNamed(old(dataset.graphs)), graph.triples)
    {
      this.dataset := dataset;
      triples := {};
      new;
      AddDefaultAsNamedGraph();
      triples := triples + graph.triples;
      SetAsDefaultGraph();
    }

    method AddDefaultAsNamedGraph()
      modifies dataset
      ensures dataset.graphs == AddDefaultAsNamed(old(dataset.graphs))
    {
      if !dataset.HasGraph(DefaultBackup) {
        var defaultAsNamedGraph := CopyGraph(GraphOf(dataset.graphs, DefaultGraph));
        assert GraphOf(dataset.graphs, DefaultBackup) + defaultAsNamedGraph.triples
               == GraphOf(dataset.graphs, DefaultGraph);
        dataset.AddGraph(DefaultBackup, defaultAsNamedGraph.triples);
      }
    }

    /** Replaces the dataset's default graph by a copy of this graph. */
    method SetAsDefaultGraph()
      modifies dataset
      ensures dataset.graphs == SetDefault(old(dataset.graphs), triples)
    {
      dataset.RemoveGraph(DefaultGraph);
      var newDefaultGraph := CopyGraph(triples);
      assert GraphOf(dataset.graphs, DefaultGraph) + newDefaultGraph.triples == triples;
      dataset.AddGraph(DefaultGraph, newDefaultGraph.triples);
      SwapDefault(old(dataset.graphs), dataset.graphs, triples);
    }

    /** Replaces the dataset's default graph by a copy of the backup. */
    method ResetDefaultGraph()
      requires DefaultBackup in dataset.graphs
      modifies dataset
      ensures dataset.graphs == ResetDefault(old(dataset.graphs))
    {
      var defaultAsNamedGraph := dataset.graphs[DefaultBackup];
      var defaultGraph := CopyGraph(defaultAsNamedGraph);
      dataset.RemoveGraph(DefaultGraph);
      assert GraphOf(dataset.graphs, DefaultGraph) + defaultGraph.triples == defaultAsNamedGraph;
      dataset.AddGraph(DefaultGraph, defaultGraph.triples);
      SwapDefault(old(dataset.graphs), dataset.graphs, defaultAsNamedGraph);
    }
  }
}
