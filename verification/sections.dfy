/** The line-level machinery both section handlers share: finding the first
    header line of a top-level key, measuring the indented block that follows
    it, and splicing template lines into the document's lines. The two
    handlers repeat this code verbatim; here it is defined once. */
module Sections {
  import opened Options
  import opened Text

  /** The header keys the handlers look for. */
  const OpenapiKey: string := "openapi:"
  const InfoKey: string := "info:"
  const PathsKey: string := "paths:"

  /** `line.trim().startsWith(key)`: the line, ignoring surrounding
      whitespace, begins with `key`. Indented lines qualify. */
  predicate IsHeader(line: string, key: string) {
    StartsWith(Trim(line), key)
  }

  /** Some line is a header for `key`. */
  ghost predicate HasHeader(lines: seq<string>, key: string) {
    exists i | 0 <= i < |lines| :: IsHeader(lines[i], key)
  }

  /** Line `k` is a header for `key` and no earlier line is. */
  ghost predicate FirstHeaderAt(lines: seq<string>, key: string, k: nat) {
    && k < |lines|
    && IsHeader(lines[k], key)
    && forall j | 0 <= j < k :: !IsHeader(lines[j], key)
  }

  /** `lines.findIndex(line => line.trim().startsWith(key))`, with `None`
      for the `-1` of no match. */
  function FindHeader(lines: seq<string>, key: string): (r: Option<nat>)
    ensures r.None? <==> !HasHeader(lines, key)
    ensures r.Some? ==> FirstHeaderAt(lines, key, r.value)
  {
    if |lines| == 0 then None
    else if IsHeader(lines[0], key) then Some(0)
    else
      HasHeaderTail(lines, key);
      match FindHeader(lines[1..], key)
      case None => None
      case Some(j) =>
        FirstHeaderTail(lines, key, j);
        Some(j + 1)
  }

  /** A list whose first line is not a header has one exactly when its tail
      has one. */
  lemma HasHeaderTail(lines: seq<string>, key: string)
    requires |lines| > 0 && !IsHeader(lines[0], key)
    ensures HasHeader(lines, key) <==> HasHeader(lines[1..], key)
  {
    if HasHeader(lines[1..], key) {
      var i :| 0 <= i < |lines[1..]| && IsHeader(lines[1..][i], key);
      assert lines[i + 1] == lines[1..][i];
    }
    if HasHeader(lines, key) {
      var i :| 0 <= i < |lines| && IsHeader(lines[i], key);
      assert lines[1..][i - 1] == lines[i];
    }
  }

  /** The first header of the tail, shifted by one, is the first header of a
      list whose first line is not a header. */
  lemma FirstHeaderTail(lines: seq<string>, key: string, j: nat)
    requires |lines| > 0 && !IsHeader(lines[0], key)
    requires FirstHeaderAt(lines[1..], key, j)
    ensures FirstHeaderAt(lines, key, j + 1)
  {
    forall i | 1 <= i <= j ensures lines[i] == lines[1..][i - 1] {}
  }

  /** `line.startsWith(" ") || line.startsWith("\t")`: the line belongs to
      the block of the header above it. An empty line does not. */
  predicate IsIndented(line: string) {
    |line| > 0 && (line[0] == ' ' || line[0] == '\t')
  }

  /** The section headed by line `k` occupies lines `k` up to, not including,
      `e`: every line strictly between is indented, and line `e`, if there is
      one, is not. */
  ghost predicate SectionEndsAt(lines: seq<string>, k: nat, e: nat) {
    && k < e <= |lines|
    && (forall j | k < j < e :: IsIndented(lines[j]))
    && (e == |lines| || !IsIndented(lines[e]))
  }

  /** A line indented by `n` spaces is not a header for `key` when its text
      differs from `key` at position `j` (or ends before it). */
  lemma IndentedNotHeader(line: string, n: nat, key: string, j: nat)
    requires n < |line| && forall i | 0 <= i < n :: line[i] == ' '
    requires !IsWhitespace(line[n])
    requires |key| > 0 && !IsWhitespace(key[|key| - 1])
    requires j < |key| && (n + j >= |line| || line[n + j] != key[j])
    ensures !IsHeader(line, key)
  {
    TrimStartSkips(line, n);
    TrimmedStartsWith(line, key);
    if n + j < |line| {
      assert line[n..][j] == line[n + j];
    }
  }

  /** A template body line: indented by `n > 0` spaces before its first
      non-whitespace character, and without a newline. */
  ghost predicate IndentedBy(line: string, n: nat) {
    && 0 < n < |line|
    && (forall i | 0 <= i < n :: line[i] == ' ')
    && !IsWhitespace(line[n])
    && Newline !in line
  }

  /** Appending text without a newline keeps a line's indentation. */
  lemma IndentedByAppend(a: string, b: string, n: nat)
    requires IndentedBy(a, n) && Newline !in b
    ensures IndentedBy(a + b, n) && (a + b)[n] == a[n]
  {
    assert forall i | 0 <= i < n :: (a + b)[i] == a[i];
  }

  /** A key has only one first header. */
  lemma FirstHeaderUnique(lines: seq<string>, key: string, k1: nat, k2: nat)
    requires FirstHeaderAt(lines, key, k1) && FirstHeaderAt(lines, key, k2)
    ensures k1 == k2
  {
  }

  /** The template's lines sit at the first header for `key`. */
  ghost predicate TemplateAtFirstHeader(lines: seq<string>, template: seq<string>, key: string) {
    exists k: nat | FirstHeaderAt(lines, key, k) :: k + |template| <= |lines| && lines[k..k + |template|] == template
  }

  /** A section has only one end. */
  lemma SectionEndUnique(lines: seq<string>, k: nat, e1: nat, e2: nat)
    requires SectionEndsAt(lines, k, e1) && SectionEndsAt(lines, k, e2)
    ensures e1 == e2
  {
  }

  /** The `while` loop that advances `endIndex` past indented lines,
      starting at `from`. */
  function ScanIndented(lines: seq<string>, from: nat): (e: nat)
    requires from <= |lines|
    ensures from <= e <= |lines|
    ensures forall j | from <= j < e :: IsIndented(lines[j])
    ensures e == |lines| || !IsIndented(lines[e])
    decreases |lines| - from
  {
    if from < |lines| && IsIndented(lines[from]) then ScanIndented(lines, from + 1) else from
  }

  /** Where the section headed by line `k` ends. */
  function SectionEnd(lines: seq<string>, k: nat): (e: nat)
    requires k < |lines|
    ensures SectionEndsAt(lines, k, e)
  {
    ScanIndented(lines, k + 1)
  }

  /** The array `lines` after `lines.splice(start, deleteCount, ...items)`
      (every call in the handlers passes an in-range start and count). */
  function Splice(lines: seq<string>, start: nat, deleteCount: nat, items: seq<string>): (r: seq<string>)
    requires start + deleteCount <= |lines|
    ensures |r| == |lines| - deleteCount + |items|
    ensures r[..start] == lines[..start]
    ensures r[start..start + |items|] == items
    ensures r[start + |items|..] == lines[start + deleteCount..]
  {
    lines[..start] + items + lines[start + deleteCount..]
  }

  /** A template for a section: its first line is the header for `key`, no
      later line is, and no line holds a newline. */
  ghost predicate IsTemplate(template: seq<string>, key: string) {
    && |template| > 0
    && IsHeader(template[0], key)
    && (forall i | 1 <= i < |template| :: !IsHeader(template[i], key))
    && SeparatorFree(template, Newline)
  }

  /** Splicing a template where no earlier line is a header for its key makes
      the template's header the first one. */
  lemma SpliceFirstHeader(lines: seq<string>, start: nat, deleteCount: nat, template: seq<string>, key: string)
    requires start + deleteCount <= |lines|
    requires forall j | 0 <= j < start :: !IsHeader(lines[j], key)
    requires IsTemplate(template, key)
    ensures FirstHeaderAt(Splice(lines, start, deleteCount, template), key, start)
  {
    var r := Splice(lines, start, deleteCount, template);
    assert r[start] == template[0];
    forall j | 0 <= j < start ensures !IsHeader(r[j], key) {
      assert r[j] == r[..start][j];
    }
  }

  /** The lines of the joined result of a splice of split lines with a
      template are exactly the spliced lines: nothing is merged or lost. */
  lemma SplitSplicedJoin(lines: seq<string>, start: nat, deleteCount: nat, template: seq<string>, key: string)
    requires start + deleteCount <= |lines|
    requires SeparatorFree(lines, Newline)
    requires IsTemplate(template, key)
    ensures Split(Join(Splice(lines, start, deleteCount, template), Newline), Newline)
      == Splice(lines, start, deleteCount, template)
  {
    var r := Splice(lines, start, deleteCount, template);
    forall i | 0 <= i < |r| ensures Newline !in r[i] {
      if i < start {
        assert r[i] == lines[i];
      } else if i < start + |template| {
        assert r[i] == template[i - start];
      } else {
        assert r[i] == lines[i - |template| + deleteCount];
      }
    }
    SplitJoin(r, Newline);
  }

  /** The lines of the text that replaces lines `start` up to `end` of a
      document with a template. */
  lemma SplicedLines(spec: string, start: nat, end: nat, template: seq<string>, key: string)
    requires start <= end <= |Split(spec, Newline)|
    requires IsTemplate(template, key)
    ensures var lines := Split(spec, Newline);
      Split(Join(Splice(lines, start, end - start, template), Newline), Newline)
        == lines[..start] + template + lines[end..]
  {
    SplitFacts(spec, Newline);
    SplitSplicedJoin(Split(spec, Newline), start, end - start, template, key);
  }

  /** Prepending a template's text and a newline to a document puts the
      template's lines in front of the document's lines. */
  lemma SplitPrepended(template: seq<string>, key: string, spec: string)
    requires IsTemplate(template, key)
    ensures Split(Join(template, Newline) + [Newline] + spec, Newline) == template + Split(spec, Newline)
  {
    var lines := Split(spec, Newline);
    SplitFacts(spec, Newline);
    JoinSplit(spec, Newline);
    JoinAppend(template, lines, Newline);
    var r := template + lines;
    forall i | 0 <= i < |r| ensures Newline !in r[i] {
      if i >= |template| {
        assert r[i] == lines[i - |template|];
      }
    }
    SplitJoin(r, Newline);
  }

  /** A string is determined by its lines. */
  lemma SameLines(a: string, b: string)
    requires Split(a, Newline) == Split(b, Newline)
    ensures a == b
  {
    JoinSplit(a, Newline);
    JoinSplit(b, Newline);
  }
  /** A line that starts, with no leading whitespace, with `key` is a header
      for `key`. */
  lemma StartsWithHeader(line: string, key: string)
    requires |line| > 0 && !IsWhitespace(line[0]) && StartsWith(line, key)
    requires |key| > 0 && !IsWhitespace(key[|key| - 1])
    ensures IsHeader(line, key)
  {
    TrimStartSkips(line, 0);
    assert line[0..] == line;
    TrimmedStartsWith(line, key);
  }

  /** A line outside the spliced range that is a header is still a header
      after the splice. */
  lemma SpliceKeepsHeader(lines: seq<string>, start: nat, deleteCount: nat, items: seq<string>, key: string, i: nat)
    requires start + deleteCount <= |lines|
    requires i < start || start + deleteCount <= i < |lines|
    requires IsHeader(lines[i], key)
    ensures HasHeader(Splice(lines, start, deleteCount, items), key)
  {
    var r := Splice(lines, start, deleteCount, items);
    if i < start {
      assert r[i] == lines[i];
    } else {
      assert r[i - deleteCount + |items|] == lines[i];
    }
  }

  /** A splice introduces a header only through its items. */
  lemma SpliceNoHeader(lines: seq<string>, start: nat, deleteCount: nat, items: seq<string>, key: string)
    requires start + deleteCount <= |lines|
    requires forall j | 0 <= j < start :: !IsHeader(lines[j], key)
    requires forall j | start + deleteCount <= j < |lines| :: !IsHeader(lines[j], key)
    requires forall j | 0 <= j < |items| :: !IsHeader(items[j], key)
    ensures !HasHeader(Splice(lines, start, deleteCount, items), key)
  {
    var r := Splice(lines, start, deleteCount, items);
    forall i | 0 <= i < |r| ensures !IsHeader(r[i], key) {
      if i < start {
        assert r[i] == lines[i];
      } else if i < start + |items| {
        assert r[i] == items[i - start];
      } else {
        assert r[i] == lines[i - |items| + deleteCount];
      }
    }
  }

  /** Where a template sits at line `k` and its lines `1..m` are indented,
      the section headed at `k` ends at `k + m` if the line there is not
      indented. */
  lemma SectionEndsAtTemplate(lines: seq<string>, k: nat, template: seq<string>, m: nat)
    requires k + |template| <= |lines| && lines[k..k + |template|] == template
    requires 0 < m <= |template|
    requires forall i | 1 <= i < m :: IsIndented(template[i])
    requires k + m == |lines| || !IsIndented(lines[k + m])
    ensures SectionEndsAt(lines, k, k + m)
  {
    forall j | k < j < k + m ensures IsIndented(lines[j]) {
      assert lines[j] == template[j - k];
    }
  }

  /** Splicing lines over an identical copy of themselves changes nothing. */
  lemma SpliceInPlace(lines: seq<string>, k: nat, items: seq<string>)
    requires k + |items| <= |lines| && lines[k..k + |items|] == items
    ensures Splice(lines, k, |items|, items) == lines
  {
  }

  /** Splicing a template where no earlier line is a header for its key puts
      the template at the first header. */
  lemma SpliceInstallsTemplate(lines: seq<string>, start: nat, deleteCount: nat, template: seq<string>, key: string)
    requires start + deleteCount <= |lines|
    requires forall j | 0 <= j < start :: !IsHeader(lines[j], key)
    requires IsTemplate(template, key)
    ensures TemplateAtFirstHeader(Splice(lines, start, deleteCount, template), template, key)
  {
    SpliceFirstHeader(lines, start, deleteCount, template, key);
  }

  /** The template installed at the first header sits at any index known to
      be the first header. */
  lemma TemplateAtFirst(lines: seq<string>, template: seq<string>, key: string, k: nat)
    requires TemplateAtFirstHeader(lines, template, key)
    requires FirstHeaderAt(lines, key, k)
    ensures k + |template| <= |lines| && lines[k..k + |template|] == template
  {
    var k1: nat :| FirstHeaderAt(lines, key, k1) && k1 + |template| <= |lines| && lines[k1..k1 + |template|] == template;
    FirstHeaderUnique(lines, key, k1, k);
  }
}
