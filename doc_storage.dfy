// Storage used by a user's projects: the size of every document's lines,
// each followed by a newline, summed over the projects the user owns.
// The database queries are values handed in: a query that throws is its
// failed case.
module DocStorage {
  import opened Wrappers

  /** A document as projected by the query: `lines` is `None` when the
      field is missing or is not an array. */
  datatype Doc = Doc(lines: Option<seq<string>>)

  /** Result of the per-project docs query. */
  datatype DocsQuery = DocsFailed | Docs(docs: seq<Doc>)

  /** Result of the owned-projects query: one docs query per project. */
  datatype ProjectsQuery = ProjectsFailed | Projects(projects: seq<DocsQuery>)

  /** The reducer over a document's lines: each line's length plus one. */
  function LinesSize(lines: seq<string>): nat
  {
    if lines == [] then 0
    else LinesSize(lines[..|lines| - 1]) + |lines[|lines| - 1]| + 1
  }

  /** The document's text with every line terminated by a newline. */
  function TerminatedText(lines: seq<string>): string
  {
    if lines == [] then ""
    else TerminatedText(lines[..|lines| - 1]) + lines[|lines| - 1] + "\n"
  }

  /** The size the reducer computes is the length of the document text. */
  lemma {:induction false} LinesSizeIsTextLength(lines: seq<string>)
    ensures LinesSize(lines) == |TerminatedText(lines)|
  {
    if lines != [] {
      LinesSizeIsTextLength(lines[..|lines| - 1]);
    }
  }

  /** A document counts only when its lines are an array. */
  function DocSize(d: Doc): nat
  {
    match d.lines
    case None => 0
    case Some(ls) => LinesSize(ls)
  }

  function DocsSize(docs: seq<Doc>): nat
  {
    if docs == [] then 0 else DocsSize(docs[..|docs| - 1]) + DocSize(docs[|docs| - 1])
  }

  /** A project whose docs query throws is skipped. */
  function ProjectSize(q: DocsQuery): nat
  {
    match q
    case DocsFailed => 0
    case Docs(ds) => DocsSize(ds)
  }

  function ProjectsSize(ps: seq<DocsQuery>): nat
  {
    if ps == [] then 0 else ProjectsSize(ps[..|ps| - 1]) + ProjectSize(ps[|ps| - 1])
  }

  /** What the storage computation returns for a projects query. */
  function StorageOf(q: ProjectsQuery): nat
  {
    match q
    case ProjectsFailed => 0
    case Projects(ps) => ProjectsSize(ps)
  }

  /** Sizes add up over concatenated project lists. */
  lemma {:induction false} ProjectsSizeAppend(a: seq<DocsQuery>, b: seq<DocsQuery>)
    ensures ProjectsSize(a + b) == ProjectsSize(a) + ProjectsSize(b)
    decreases |b|
  {
    if b == [] {
      assert a + b == a;
    } else {
      var b' := b[..|b| - 1];
      assert (a + b)[..|a + b| - 1] == a + b';
      ProjectsSizeAppend(a, b');
    }
  }

  /** Projects whose docs queries all fail contribute nothing. */
  lemma {:induction false} FailedProjectsAddNothing(ps: seq<DocsQuery>)
    requires forall i :: 0 <= i < |ps| ==> ps[i].DocsFailed?
    ensures ProjectsSize(ps) == 0
  {
    if ps != [] {
      FailedProjectsAddNothing(ps[..|ps| - 1]);
    }
  }

  /** The two nested loops over projects and their documents. */
  method SumStorage(q: ProjectsQuery) returns (total: nat)
    ensures total == StorageOf(q)
  {
    if q.ProjectsFailed? || |q.projects| == 0 {
      return 0;
    }
    var ps := q.projects;
    total := 0;
    var i := 0;
    while i < |ps|
      invariant 0 <= i <= |ps|
      invariant total == ProjectsSize(ps[..i])
    {
      assert ps[..i + 1][..i] == ps[..i];
      match ps[i] {
        case DocsFailed =>
        case Docs(docs) =>
        var j := 0;
        var projectTotal := 0;
        while j < |docs|
          invariant 0 <= j <= |docs|
          invariant projectTotal == DocsSize(docs[..j])
        {
          assert docs[..j + 1][..j] == docs[..j];
          if docs[j].lines.Some? {
            projectTotal := projectTotal + LinesSize(docs[j].lines.value);
          }
          j := j + 1;
        }
        assert docs[..j] == docs;
        total := total + projectTotal;
      }
      i := i + 1;
    }
    assert ps[..i] == ps;
  }
}
