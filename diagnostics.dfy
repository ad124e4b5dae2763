/**
 * The diagnostic collector (src/parser/DiagnosticCollector.ts): an ordered list of
 * diagnostics and two category sets (AST and syntax) whose members can be cleared in bulk.
 * Category membership is by object identity, so a diagnostic is an object.
 */
module Diagnostics {
  import opened Wrappers

  datatype Severity = Error | Warning | Info

  /** A validation finding. Its fields never change; two diagnostics with equal fields are
      still two different members of a category set. */
  class Diagnostic {
    const message: string
    const severity: Severity
    const line: Option<int>
    const column: Option<int>
    const source: Option<string>

    constructor (message: string, severity: Severity, line: Option<int>, column: Option<int>, source: Option<string>)
      ensures this.message == message && this.severity == severity
      ensures this.line == line && this.column == column && this.source == source
    {
      this.message := message;
      this.severity := severity;
      this.line := line;
      this.column := column;
      this.source := source;
    }
  }

  /** `ds.filter(d => !tagged.has(d))`. */
  function Without(ds: seq<Diagnostic>, tagged: set<Diagnostic>): seq<Diagnostic> {
    if ds == [] then []
    else
      var last := ds[|ds| - 1];
      Without(ds[..|ds| - 1], tagged) + (if last in tagged then [] else [last])
  }

  /** Filtering keeps exactly the untagged entries ... */
  lemma {:induction false} WithoutMembers(ds: seq<Diagnostic>, tagged: set<Diagnostic>)
    ensures forall d :: d in Without(ds, tagged) <==> d in ds && d !in tagged
    decreases |ds|
  {
    if ds != [] {
      WithoutMembers(ds[..|ds| - 1], tagged);
      assert ds == ds[..|ds| - 1] + [ds[|ds| - 1]];
    }
  }

  /** ... and keeps them in their original order: filtering a concatenation filters each part. */
  lemma {:induction false} WithoutAppend(a: seq<Diagnostic>, b: seq<Diagnostic>, tagged: set<Diagnostic>)
    ensures Without(a + b, tagged) == Without(a, tagged) + Without(b, tagged)
    decreases |b|
  {
    if b == [] {
      assert a + b == a;
    } else {
      assert (a + b)[..|a + b| - 1] == a + b[..|b| - 1];
      WithoutAppend(a, b[..|b| - 1], tagged);
    }
  }

  /** Filtering by a set that holds none of the entries changes nothing. */
  lemma {:induction false} WithoutUntagged(ds: seq<Diagnostic>, tagged: set<Diagnostic>)
    requires forall d :: d in ds ==> d !in tagged
    ensures Without(ds, tagged) == ds
    decreases |ds|
  {
    if ds != [] {
      WithoutUntagged(ds[..|ds| - 1], tagged);
      assert ds == ds[..|ds| - 1] + [ds[|ds| - 1]];
    }
  }

  /** Filtering twice by the same set is filtering once. */
  lemma WithoutIdempotent(ds: seq<Diagnostic>, tagged: set<Diagnostic>)
    ensures Without(Without(ds, tagged), tagged) == Without(ds, tagged)
  {
    WithoutMembers(ds, tagged);
    WithoutUntagged(Without(ds, tagged), tagged);
  }

  /** DefaultDiagnosticCollector. */
  class DefaultDiagnosticCollector {
    var entries: seq<Diagnostic>
    var astDiagnostics: set<Diagnostic>
    var syntaxDiagnostics: set<Diagnostic>

    /** Neither category set holds anything: nothing in the class ever inserts into them. */
    predicate Untagged()
      reads this
    {
      astDiagnostics == {} && syntaxDiagnostics == {}
    }

    constructor ()
      ensures entries == [] && Untagged()
    {
      entries := [];
      astDiagnostics := {};
      syntaxDiagnostics := {};
    }

    /** The `diagnostics` accessor: the current list, nothing changed. */
    method Diagnostics() returns (ds: seq<Diagnostic>)
      ensures ds == entries
    {
      ds := entries;
    }

    /** add: append at the end; earlier entries and both category sets stay as they were. */
    method Add(d: Diagnostic)
      modifies this
      ensures entries == old(entries) + [d]
      ensures astDiagnostics == old(astDiagnostics) && syntaxDiagnostics == old(syntaxDiagnostics)
    {
      entries := entries + [d];
    }

    /** clearDiagnostics: the list and both category sets become empty. */
    method ClearDiagnostics()
      modifies this
      ensures entries == [] && Untagged()
    {
      entries := [];
      astDiagnostics := {};
      syntaxDiagnostics := {};
    }

    /** clearASTDiagnostics: drop the AST-tagged entries, keep the others in order, empty the
        AST set and leave the syntax set alone. */
    method ClearAstDiagnostics()
      modifies this
      ensures entries == Without(old(entries), old(astDiagnostics))
      ensures astDiagnostics == {} && syntaxDiagnostics == old(syntaxDiagnostics)
    {
      entries := Without(entries, astDiagnostics);
      astDiagnostics := {};
    }

    /** clearSyntaxDiagnostics: the same for the syntax set, leaving the AST set alone. */
    method ClearSyntaxDiagnostics()
      modifies this
      ensures entries == Without(old(entries), old(syntaxDiagnostics))
      ensures syntaxDiagnostics == {} && astDiagnostics == old(astDiagnostics)
    {
      entries := Without(entries, syntaxDiagnostics);
      syntaxDiagnostics := {};
    }
  }

  /** A collector filled only through `add` keeps its whole list through either category
      clear, and a second clear of the same category changes nothing more. */
  method AddThenClear(ds: seq<Diagnostic>) returns (kept: seq<Diagnostic>)
    ensures kept == ds
  {
    var c := new DefaultDiagnosticCollector();
    var i := 0;
    while i < |ds|
      invariant i <= |ds|
      invariant c.entries == ds[..i] && c.Untagged()
    {
      c.Add(ds[i]);
      assert ds[..i + 1] == ds[..i] + [ds[i]];
      i := i + 1;
    }
    WithoutUntagged(c.entries, c.astDiagnostics);
    c.ClearAstDiagnostics();
    WithoutUntagged(c.entries, c.syntaxDiagnostics);
    c.ClearSyntaxDiagnostics();
    ghost var once := c.entries;
    WithoutUntagged(c.entries, c.astDiagnostics);
    c.ClearAstDiagnostics();
    assert c.entries == once;
    kept := c.Diagnostics();
    assert ds[..|ds|] == ds;
  }
}
