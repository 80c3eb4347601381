/** `addOrReplacePathsInSpec`: give the document the canonical `paths`
    section, working purely on the text's lines. An existing `paths:` section
    (its header line and the indented block under it) is replaced; otherwise
    the template goes right after the first `info:` line, or after the first
    `openapi:` line when there is no `info:` line, or in front of the whole
    text when there is neither. */
module Paths {
  import opened Options
  import opened Text
  import opened Sections

  /** The lines of `pathsSnippet`. The snippet ends with a newline, so its
      last line is empty. Long lines are written as concatenations of shorter
      literals; the text is the same. */
  const PathsSnippetLines: seq<string> := [
    "paths:",
    "  /example/{exampleId}:",
    "    get:",
    "      tags:",
    "        - example",
    "      summary: Find example by ID.",
    "      description: " + "Returns a single example resource.",
    "      operationId: getExampleById",
    "      parameters:",
    "        - name: exampleId",
    "          in: path",
    "          description: " + "ID of example to return",
    "          required: true",
    "          schema:",
    "            type: integer",
    "            format: int64",
    "      responses:",
    "        '200':",
    "          description: " + "successful operation",
    "          content:",
    "            application/json:",
    "              schema:",
    "                $ref: " + "'#/components/schemas/Example'",
    "            application/xml:",
    "              schema:",
    "                $ref: " + "'#/components/schemas/Example'",
    ""
  ]

  /** `pathsSnippet`: the template's lines joined by newlines. */
  const PathsSnippet: string := Join(PathsSnippetLines, Newline)

  /** `insertAfterIndex`: the first `info:` line if there is one, otherwise
      the first `openapi:` line, otherwise none. */
  function InsertAfter(lines: seq<string>): (r: Option<nat>)
    ensures r.None? <==> !HasHeader(lines, InfoKey) && !HasHeader(lines, OpenapiKey)
    ensures HasHeader(lines, InfoKey) ==> r.Some? && FirstHeaderAt(lines, InfoKey, r.value)
    ensures !HasHeader(lines, InfoKey) && HasHeader(lines, OpenapiKey) ==>
      r.Some? && FirstHeaderAt(lines, OpenapiKey, r.value)
  {
    match FindHeader(lines, InfoKey)
    case Some(infoIndex) => Some(infoIndex)
    case None => FindHeader(lines, OpenapiKey)
  }

  /** The new editor text. With no `paths:`, `info:` or `openapi:` line, the
      result is the snippet (which ends with a newline), another newline and
      the old text. */
  function AddOrReplacePaths(spec: string): (r: string)
    ensures var lines := Split(spec, Newline);
      !HasHeader(lines, PathsKey) && !HasHeader(lines, InfoKey) && !HasHeader(lines, OpenapiKey) ==>
        r == PathsSnippet + [Newline] + spec
  {
    UpsertPaths(spec, PathsSnippetLines)
  }

  /** The handler's algorithm with the template's lines as a parameter. */
  function UpsertPaths(spec: string, template: seq<string>): string {
    UpsertLines(spec, Split(spec, Newline), template)
  }

  /** The handler's algorithm on the document text and its lines. */
  function UpsertLines(spec: string, lines: seq<string>, template: seq<string>): string {
    match FindHeader(lines, PathsKey)
    case Some(pathsIndex) =>
      var endIndex := SectionEnd(lines, pathsIndex);
      Join(Splice(lines, pathsIndex, endIndex - pathsIndex, template), Newline)
    case None =>
      match InsertAfter(lines)
      case None => Join(template, Newline) + [Newline] + spec
      case Some(insertAfterIndex) =>
        Join(Splice(lines, insertAfterIndex + 1, 0, template), Newline)
  }

  /** What the proofs need of the template: a section template for `paths:`
      whose header is not indented, whose body lines are indented, and whose
      last line is empty. */
  ghost predicate PathsShaped(template: seq<string>) {
    && |template| >= 2
    && IsTemplate(template, PathsKey)
    && !IsIndented(template[0])
    && (forall i | 1 <= i < |template| - 1 :: IsIndented(template[i]))
    && template[|template| - 1] == ""
  }

  /** The template has 27 lines, the last one empty: its first line is the
      only `paths:` header, the 25 lines in between are indented, and
      splitting the snippet gives its lines back. */
  lemma PathsSnippetShape()
    ensures |PathsSnippetLines| == 27
    ensures PathsShaped(PathsSnippetLines)
    ensures Split(PathsSnippet, Newline) == PathsSnippetLines
  {
    PathsSnippetEnds();
    PathsSnippetBody();
    PathsBodyLinesShaped(PathsSnippetLines, PathsSnippetIndents);
    SplitJoin(PathsSnippetLines, Newline);
  }

  /** How far each line of the template is indented. */
  const PathsSnippetIndents: seq<nat> := [0, 2, 4, 6, 8, 6, 6, 6, 6, 8, 10, 10, 10, 10, 12, 12, 6, 8, 10, 10, 12, 14, 16, 12, 14, 16, 0]

  /** A template body line: indented, and its text does not start with
      `pa` followed by `t`, so it cannot be a `paths:` header. */
  ghost predicate PathsBodyLine(line: string, n: nat) {
    && IndentedBy(line, n)
    && n + 2 < |line|
    && (line[n] != 'p' || line[n + 2] != 't')
  }

  /** The template's first line is the `paths:` header, unindented, and its
      last line is empty. */
  lemma PathsSnippetEnds()
    ensures |PathsSnippetLines| == 27
    ensures IsHeader(PathsSnippetLines[0], PathsKey) && !IsIndented(PathsSnippetLines[0])
    ensures Newline !in PathsSnippetLines[0]
    ensures PathsSnippetLines[26] == "" && !IsHeader(PathsSnippetLines[26], PathsKey)
  {
    StartsWithHeader(PathsSnippetLines[0], PathsKey);
  }

  /** Each of the template's lines strictly between the first and the last
      is a body line. */
  lemma PathsSnippetBody()
    ensures |PathsSnippetLines| == |PathsSnippetIndents| == 27
    ensures forall i | 1 <= i < 26 :: PathsBodyLine(PathsSnippetLines[i], PathsSnippetIndents[i])
  {
    PathsSnippetLine1();
    PathsSnippetLine2();
    PathsSnippetLine3();
    PathsSnippetLine4();
    PathsSnippetLine5();
    PathsSnippetLine6();
    PathsSnippetLine7();
    PathsSnippetLine8();
    PathsSnippetLine9();
    PathsSnippetLine10();
    PathsSnippetLine11();
    PathsSnippetLine12();
    PathsSnippetLine13();
    PathsSnippetLine14();
    PathsSnippetLine15();
    PathsSnippetLine16();
    PathsSnippetLine17();
    PathsSnippetLine18();
    PathsSnippetLine19();
    PathsSnippetLine20();
    PathsSnippetLine21();
    PathsSnippetLine22();
    PathsSnippetLine23();
    PathsSnippetLine24();
    PathsSnippetLine25();
    forall i | 1 <= i < 26 ensures PathsBodyLine(PathsSnippetLines[i], PathsSnippetIndents[i]) {
      assert i == 1 || i == 2 || i == 3 || i == 4 || i == 5 || i == 6 || i == 7 || i == 8 || i == 9 || i == 10 || i == 11 || i == 12 || i == 13 || i == 14 || i == 15 || i == 16 || i == 17 || i == 18 || i == 19 || i == 20 || i == 21 || i == 22 || i == 23 || i == 24 || i == 25;
    }
  }

  /** Body lines are indented, free of newlines, and not `paths:` headers. */
  lemma PathsBodyLinesShaped(template: seq<string>, indents: seq<nat>)
    requires |template| == |indents|
    requires forall i | 1 <= i < |template| - 1 :: PathsBodyLine(template[i], indents[i])
    ensures forall i | 1 <= i < |template| - 1 ::
      IsIndented(template[i]) && Newline !in template[i] && !IsHeader(template[i], PathsKey)
  {
    forall i | 1 <= i < |template| - 1
      ensures IsIndented(template[i]) && Newline !in template[i] && !IsHeader(template[i], PathsKey)
    {
      var n := indents[i];
      if template[i][n] != 'p' {
        IndentedNotHeader(template[i], n, PathsKey, 0);
      } else {
        IndentedNotHeader(template[i], n, PathsKey, 2);
      }
    }
  }

  /** A body line written as two literals. */
  lemma PathsLinePieces(a: string, b: string, n: nat)
    requires PathsBodyLine(a, n) && Newline !in b
    ensures PathsBodyLine(a + b, n)
  {
    IndentedByAppend(a, b, n);
  }

  // The template's body lines, one literal at a time. Each line gets its own
  // small lemma so that each solver query unfolds a single literal, which
  // keeps the snippet lemma's own proof cheap.
  lemma PathsSnippetLine1() ensures PathsBodyLine(PathsSnippetLines[1], 2) {}
  lemma PathsSnippetLine2() ensures PathsBodyLine(PathsSnippetLines[2], 4) {}
  lemma PathsSnippetLine3() ensures PathsBodyLine(PathsSnippetLines[3], 6) {}
  lemma PathsSnippetLine4() ensures PathsBodyLine(PathsSnippetLines[4], 8) {}
  lemma PathsSnippetLine5() ensures PathsBodyLine(PathsSnippetLines[5], 6) {}
  lemma PathsSnippetLine6() ensures PathsBodyLine(PathsSnippetLines[6], 6) {
    PathsLinePieces("      description: ", "Returns a single example resource.", 6);
  }
  lemma PathsSnippetLine7() ensures PathsBodyLine(PathsSnippetLines[7], 6) {}
  lemma PathsSnippetLine8() ensures PathsBodyLine(PathsSnippetLines[8], 6) {}
  lemma PathsSnippetLine9() ensures PathsBodyLine(PathsSnippetLines[9], 8) {}
  lemma PathsSnippetLine10() ensures PathsBodyLine(PathsSnippetLines[10], 10) {}
  lemma PathsSnippetLine11() ensures PathsBodyLine(PathsSnippetLines[11], 10) {
    PathsLinePieces("          description: ", "ID of example to return", 10);
  }
  lemma PathsSnippetLine12() ensures PathsBodyLine(PathsSnippetLines[12], 10) {}
  lemma PathsSnippetLine13() ensures PathsBodyLine(PathsSnippetLines[13], 10) {}
  lemma PathsSnippetLine14() ensures PathsBodyLine(PathsSnippetLines[14], 12) {}
  lemma PathsSnippetLine15() ensures PathsBodyLine(PathsSnippetLines[15], 12) {}
  lemma PathsSnippetLine16() ensures PathsBodyLine(PathsSnippetLines[16], 6) {}
  lemma PathsSnippetLine17() ensures PathsBodyLine(PathsSnippetLines[17], 8) {}
  lemma PathsSnippetLine18() ensures PathsBodyLine(PathsSnippetLines[18], 10) {
    PathsLinePieces("          description: ", "successful operation", 10);
  }
  lemma PathsSnippetLine19() ensures PathsBodyLine(PathsSnippetLines[19], 10) {}
  lemma PathsSnippetLine20() ensures PathsBodyLine(PathsSnippetLines[20], 12) {}
  lemma PathsSnippetLine21() ensures PathsBodyLine(PathsSnippetLines[21], 14) {}
  lemma PathsSnippetLine22() ensures PathsBodyLine(PathsSnippetLines[22], 16) {
    PathsLinePieces("                $ref: ", "'#/components/schemas/Example'", 16);
  }
  lemma PathsSnippetLine23() ensures PathsBodyLine(PathsSnippetLines[23], 12) {}
  lemma PathsSnippetLine24() ensures PathsBodyLine(PathsSnippetLines[24], 14) {}
  lemma PathsSnippetLine25() ensures PathsBodyLine(PathsSnippetLines[25], 16) {
    PathsLinePieces("                $ref: ", "'#/components/schemas/Example'", 16);
  }

  /** Replace branch: the lines before the first `paths:` header and from the
      end of its indented block on are kept verbatim and in order, with the 27
      template lines, the empty last one included, between them. */
  lemma PathsReplace(spec: string, k: nat, e: nat)
    requires FirstHeaderAt(Split(spec, Newline), PathsKey, k)
    requires SectionEndsAt(Split(spec, Newline), k, e)
    ensures var lines := Split(spec, Newline);
      Split(AddOrReplacePaths(spec), Newline) == lines[..k] + PathsSnippetLines + lines[e..]
  {
    PathsSnippetShape();
    UpsertPathsReplace(spec, PathsSnippetLines, k, e);
  }

  /** Insert branch: with no `paths:` header, the template's lines go right
      after the `info:` line (or the `openapi:` line) chosen by `InsertAfter`
      and every original line is kept in order; the document grows by exactly
      27 lines. */
  lemma PathsInsert(spec: string, i: nat)
    requires !HasHeader(Split(spec, Newline), PathsKey)
    requires InsertAfter(Split(spec, Newline)) == Some(i)
    ensures var lines := Split(spec, Newline);
      && Split(AddOrReplacePaths(spec), Newline) == lines[..i + 1] + PathsSnippetLines + lines[i + 1..]
      && |Split(AddOrReplacePaths(spec), Newline)| == |lines| + 27
  {
    PathsSnippetShape();
    UpsertPathsInsert(spec, PathsSnippetLines, i);
  }

  /** Whatever branch runs, the first `paths:` header of the result starts the
      27 template lines. */
  lemma PathsTemplateInstalled(spec: string)
    ensures TemplateAtFirstHeader(Split(AddOrReplacePaths(spec), Newline), PathsSnippetLines, PathsKey)
  {
    PathsSnippetShape();
    UpsertPathsInstalled(spec, PathsSnippetLines);
  }

  /** Applying the handler again replaces the installed section, which ends
      at the template's empty last line, so that empty line is kept and the
      template's own empty line is added: one more blank line each time. */
  lemma PathsReapplyAddsBlankLine(spec: string, k: nat)
    requires FirstHeaderAt(Split(AddOrReplacePaths(spec), Newline), PathsKey, k)
    ensures var L1 := Split(AddOrReplacePaths(spec), Newline);
      && k + 27 <= |L1|
      && Split(AddOrReplacePaths(AddOrReplacePaths(spec)), Newline) == L1[..k + 26] + [""] + L1[k + 26..]
  {
    PathsSnippetShape();
    UpsertPathsReapply(spec, PathsSnippetLines, k);
  }

  /** Hence the handler is never idempotent: for every text, applying it
      twice gives a different text than applying it once. */
  lemma PathsNeverIdempotent(spec: string)
    ensures AddOrReplacePaths(AddOrReplacePaths(spec)) != AddOrReplacePaths(spec)
  {
    var L1 := Split(AddOrReplacePaths(spec), Newline);
    PathsTemplateInstalled(spec);
    var k: nat :| FirstHeaderAt(L1, PathsKey, k) && k + |PathsSnippetLines| <= |L1|;
    PathsReapplyAddsBlankLine(spec, k);
    assert |Split(AddOrReplacePaths(AddOrReplacePaths(spec)), Newline)| == |L1| + 1;
  }

  /** As written, the insert after `info:` goes right after the header line,
      not after the section: the `info:` section shrinks to its header line
      and its old body lines end up after the template. */
  lemma PathsInsertDetachesInfoBody(spec: string, k: nat, e: nat)
    requires !HasHeader(Split(spec, Newline), PathsKey)
    requires FirstHeaderAt(Split(spec, Newline), InfoKey, k)
    requires SectionEndsAt(Split(spec, Newline), k, e)
    ensures var lines := Split(spec, Newline);
      var L1 := Split(AddOrReplacePaths(spec), Newline);
      && |L1| == |lines| + 27
      && FirstHeaderAt(L1, InfoKey, k)
      && SectionEndsAt(L1, k, k + 1)
      && L1[k + 1 + 27..e + 27] == lines[k + 1..e]
  {
    PathsSnippetShape();
    UpsertDetaches(spec, PathsSnippetLines, k, e);
  }

  /** The handler with the insert placed after the whole `info:` section, as
      the comment above the source function describes. Everything else is as
      in `AddOrReplacePaths`. */
  function AddOrReplacePathsAfterInfoSection(spec: string): string {
    UpsertPathsAfterSection(spec, PathsSnippetLines)
  }

  /** The corrected algorithm with the template's lines as a parameter. */
  function UpsertPathsAfterSection(spec: string, template: seq<string>): string {
    var lines := Split(spec, Newline);
    match FindHeader(lines, PathsKey)
    case Some(_) => UpsertPaths(spec, template)
    case None =>
      match FindHeader(lines, InfoKey)
      case Some(infoIndex) =>
        Join(Splice(lines, SectionEnd(lines, infoIndex), 0, template), Newline)
      case None => UpsertPaths(spec, template)
  }

  /** With the insert after the whole `info:` section, that section keeps
      its header and all of its body lines, and the template follows it. */
  lemma PathsInsertKeepsInfoSection(spec: string, k: nat, e: nat)
    requires !HasHeader(Split(spec, Newline), PathsKey)
    requires FirstHeaderAt(Split(spec, Newline), InfoKey, k)
    requires SectionEndsAt(Split(spec, Newline), k, e)
    ensures var lines := Split(spec, Newline);
      var L1 := Split(AddOrReplacePathsAfterInfoSection(spec), Newline);
      && L1 == lines[..e] + PathsSnippetLines + lines[e..]
      && FirstHeaderAt(L1, InfoKey, k)
      && SectionEndsAt(L1, k, e)
      && L1[k..e] == lines[k..e]
  {
    var lines := Split(spec, Newline);
    PathsSnippetShape();
    UpsertAfterSection(spec, PathsSnippetLines, k, e);
    InsertedAfterSection(lines, k, e, PathsSnippetLines);
  }

  // The same properties for any template of the right shape.

  lemma UpsertPathsReplace(spec: string, template: seq<string>, k: nat, e: nat)
    requires IsTemplate(template, PathsKey)
    requires FirstHeaderAt(Split(spec, Newline), PathsKey, k)
    requires SectionEndsAt(Split(spec, Newline), k, e)
    ensures var lines := Split(spec, Newline);
      Split(UpsertPaths(spec, template), Newline) == lines[..k] + template + lines[e..]
  {
    var lines := Split(spec, Newline);
    ReplaceText(spec, template, k, e);
    SplicedLines(spec, k, e, template, PathsKey);
  }

  lemma UpsertPathsInsert(spec: string, template: seq<string>, i: nat)
    requires IsTemplate(template, PathsKey)
    requires !HasHeader(Split(spec, Newline), PathsKey)
    requires InsertAfter(Split(spec, Newline)) == Some(i)
    ensures var lines := Split(spec, Newline);
      Split(UpsertPaths(spec, template), Newline) == lines[..i + 1] + template + lines[i + 1..]
  {
    var lines := Split(spec, Newline);
    InsertText(spec, template, i);
    SplicedLines(spec, i + 1, i + 1, template, PathsKey);
  }

  /** The text the replace branch produces. */
  lemma ReplaceText(spec: string, template: seq<string>, k: nat, e: nat)
    requires FirstHeaderAt(Split(spec, Newline), PathsKey, k)
    requires SectionEndsAt(Split(spec, Newline), k, e)
    ensures var lines := Split(spec, Newline);
      UpsertPaths(spec, template) == Join(Splice(lines, k, e - k, template), Newline)
  {
    ReplaceLines(spec, Split(spec, Newline), template, k, e);
  }

  lemma ReplaceLines(spec: string, lines: seq<string>, template: seq<string>, k: nat, e: nat)
    requires FirstHeaderAt(lines, PathsKey, k)
    requires SectionEndsAt(lines, k, e)
    ensures UpsertLines(spec, lines, template) == Join(Splice(lines, k, e - k, template), Newline)
  {
    FirstHeaderUnique(lines, PathsKey, FindHeader(lines, PathsKey).value, k);
    SectionEndUnique(lines, k, SectionEnd(lines, k), e);
    assert FindHeader(lines, PathsKey) == Some(k);
    assert SectionEnd(lines, k) == e;
  }

  /** The text the insert branch produces. */
  lemma InsertText(spec: string, template: seq<string>, i: nat)
    requires !HasHeader(Split(spec, Newline), PathsKey)
    requires InsertAfter(Split(spec, Newline)) == Some(i)
    ensures var lines := Split(spec, Newline);
      i < |lines| && UpsertPaths(spec, template) == Join(Splice(lines, i + 1, 0, template), Newline)
  {
  }

  /** The text the prepend branch produces. */
  lemma PrependText(spec: string, template: seq<string>)
    requires !HasHeader(Split(spec, Newline), PathsKey)
    requires InsertAfter(Split(spec, Newline)).None?
    ensures UpsertPaths(spec, template) == Join(template, Newline) + [Newline] + spec
  {
  }

  lemma UpsertPathsInstalled(spec: string, template: seq<string>)
    requires IsTemplate(template, PathsKey)
    ensures TemplateAtFirstHeader(Split(UpsertPaths(spec, template), Newline), template, PathsKey)
  {
    var lines := Split(spec, Newline);
    if HasHeader(lines, PathsKey) {
      InstalledByReplace(spec, template, FindHeader(lines, PathsKey).value);
    } else if InsertAfter(lines).Some? {
      InstalledByInsert(spec, template, InsertAfter(lines).value);
    } else {
      InstalledByPrepend(spec, template);
    }
  }

  lemma InstalledByReplace(spec: string, template: seq<string>, k: nat)
    requires IsTemplate(template, PathsKey)
    requires FirstHeaderAt(Split(spec, Newline), PathsKey, k)
    ensures TemplateAtFirstHeader(Split(UpsertPaths(spec, template), Newline), template, PathsKey)
  {
    var lines := Split(spec, Newline);
    var e := SectionEnd(lines, k);
    UpsertPathsReplace(spec, template, k, e);
    SpliceInstallsTemplate(lines, k, e - k, template, PathsKey);
  }

  lemma InstalledByInsert(spec: string, template: seq<string>, i: nat)
    requires IsTemplate(template, PathsKey)
    requires !HasHeader(Split(spec, Newline), PathsKey)
    requires InsertAfter(Split(spec, Newline)) == Some(i)
    ensures TemplateAtFirstHeader(Split(UpsertPaths(spec, template), Newline), template, PathsKey)
  {
    var lines := Split(spec, Newline);
    UpsertPathsInsert(spec, template, i);
    SpliceInstallsTemplate(lines, i + 1, 0, template, PathsKey);
  }

  lemma InstalledByPrepend(spec: string, template: seq<string>)
    requires IsTemplate(template, PathsKey)
    requires !HasHeader(Split(spec, Newline), PathsKey)
    requires InsertAfter(Split(spec, Newline)).None?
    ensures TemplateAtFirstHeader(Split(UpsertPaths(spec, template), Newline), template, PathsKey)
  {
    var lines := Split(spec, Newline);
    PrependText(spec, template);
    SplitPrepended(template, PathsKey, spec);
    SpliceInstallsTemplate(lines, 0, 0, template, PathsKey);
    assert Splice(lines, 0, 0, template) == template + lines;
  }

  lemma UpsertPathsReapply(spec: string, template: seq<string>, k: nat)
    requires PathsShaped(template)
    requires FirstHeaderAt(Split(UpsertPaths(spec, template), Newline), PathsKey, k)
    ensures var L1 := Split(UpsertPaths(spec, template), Newline);
      var m := |template| - 1;
      && k + |template| <= |L1|
      && Split(UpsertPaths(UpsertPaths(spec, template), template), Newline) == L1[..k + m] + [""] + L1[k + m..]
  {
    var r1 := UpsertPaths(spec, template);
    var L1 := Split(r1, Newline);
    UpsertPathsInstalled(spec, template);
    TemplateAtFirst(L1, template, PathsKey, k);
    InstalledSectionEnd(L1, k, template);
    UpsertPathsReplace(r1, template, k, k + |template| - 1);
  }

  lemma UpsertDetaches(spec: string, template: seq<string>, k: nat, e: nat)
    requires PathsShaped(template)
    requires !HasHeader(Split(spec, Newline), PathsKey)
    requires FirstHeaderAt(Split(spec, Newline), InfoKey, k)
    requires SectionEndsAt(Split(spec, Newline), k, e)
    ensures var lines := Split(spec, Newline);
      var L1 := Split(UpsertPaths(spec, template), Newline);
      && L1 == lines[..k + 1] + template + lines[k + 1..]
      && FirstHeaderAt(L1, InfoKey, k)
      && SectionEndsAt(L1, k, k + 1)
      && L1[k + 1 + |template|..e + |template|] == lines[k + 1..e]
  {
    var lines := Split(spec, Newline);
    FirstHeaderUnique(lines, InfoKey, InsertAfter(lines).value, k);
    UpsertPathsInsert(spec, template, k);
    InsertedAfterHeader(lines, k, e, template);
  }

  lemma UpsertAfterSection(spec: string, template: seq<string>, k: nat, e: nat)
    requires IsTemplate(template, PathsKey)
    requires !HasHeader(Split(spec, Newline), PathsKey)
    requires FirstHeaderAt(Split(spec, Newline), InfoKey, k)
    requires SectionEndsAt(Split(spec, Newline), k, e)
    ensures var lines := Split(spec, Newline);
      Split(UpsertPathsAfterSection(spec, template), Newline) == lines[..e] + template + lines[e..]
  {
    var lines := Split(spec, Newline);
    FirstHeaderUnique(lines, InfoKey, FindHeader(lines, InfoKey).value, k);
    SectionEndUnique(lines, k, SectionEnd(lines, k), e);
    SplicedLines(spec, e, e, template, PathsKey);
  }

  /** In the lines after a reapply, the installed section ends at the
      template's empty last line, and replacing it duplicates that line. */
  lemma InstalledSectionEnd(L1: seq<string>, k: nat, template: seq<string>)
    requires PathsShaped(template)
    requires k + |template| <= |L1| && L1[k..k + |template|] == template
    ensures var m := |template| - 1;
      && SectionEndsAt(L1, k, k + m)
      && L1[..k] + template + L1[k + m..] == L1[..k + m] + [""] + L1[k + m..]
  {
    var m := |template| - 1;
    assert L1[k + m] == template[m];
    SectionEndsAtTemplate(L1, k, template, m);
    assert L1[..k] + template == L1[..k + m] + [""];
  }

  /** Lines with a template inserted right after a section's header. */
  lemma InsertedAfterHeader(lines: seq<string>, k: nat, e: nat, template: seq<string>)
    requires PathsShaped(template)
    requires FirstHeaderAt(lines, InfoKey, k)
    requires SectionEndsAt(lines, k, e)
    ensures var L1 := lines[..k + 1] + template + lines[k + 1..];
      && FirstHeaderAt(L1, InfoKey, k)
      && SectionEndsAt(L1, k, k + 1)
      && L1[k + 1 + |template|..e + |template|] == lines[k + 1..e]
  {
    var L1 := lines[..k + 1] + template + lines[k + 1..];
    assert L1[k + 1] == template[0];
    forall j | 0 <= j <= k ensures L1[j] == lines[j] {}
  }

  /** Lines with a template inserted right after a whole section. */
  lemma InsertedAfterSection(lines: seq<string>, k: nat, e: nat, template: seq<string>)
    requires PathsShaped(template)
    requires FirstHeaderAt(lines, InfoKey, k)
    requires SectionEndsAt(lines, k, e)
    ensures var L1 := lines[..e] + template + lines[e..];
      && FirstHeaderAt(L1, InfoKey, k)
      && SectionEndsAt(L1, k, e)
      && L1[k..e] == lines[k..e]
  {
    var L1 := lines[..e] + template + lines[e..];
    assert L1[e] == template[0];
    forall j | 0 <= j < e ensures L1[j] == lines[j] {}
  }
}
