/** `addOrReplaceInfoInSpec`: give the document the canonical `info` section,
    working purely on the text's lines. Without an `openapi:` line the template
    is put in front of the whole text; otherwise an existing `info:` section
    (its header line and the indented block under it) is replaced, or, when
    there is none, the template goes right after the `openapi:` line. */
module Info {
  import opened Options
  import opened Text
  import opened Sections

  /** The lines of `infoSnippet`. Lines longer than a few dozen characters are
      written as concatenations of shorter literals; the text is the same. */
  const InfoSnippetLines: seq<string> := [
    "info:",
    "  title: Sample API",
    "  description:",
    "    This is a sample API to demonstrate" + " the info object in an" + " OpenAPI definition.",
    "  termsOfService: " + "https://example.com/terms/",
    "  contact:",
    "    name: API Support",
    "    url: https://example.com/support",
    "    email: support@example.com",
    "  license:",
    "    name: Apache 2.0",
    "    url: " + "https://www.apache.org/licenses/" + "LICENSE-2.0.html",
    "  version: 1.0.0"
  ]

  /** `infoSnippet`: the template's lines joined by newlines, with no
      newline at the end. */
  const InfoSnippet: string := Join(InfoSnippetLines, Newline)

  /** The new editor text. With no `openapi:` line anywhere, the result is the
      template, a newline and the old text, whether or not an `info:` line
      exists. */
  function AddOrReplaceInfo(spec: string): (r: string)
    ensures !HasHeader(Split(spec, Newline), OpenapiKey) ==> r == InfoSnippet + [Newline] + spec
  {
    UpsertInfo(spec, InfoSnippetLines)
  }

  /** The handler's algorithm with the template's lines as a parameter. */
  function UpsertInfo(spec: string, template: seq<string>): string {
    UpsertLines(spec, Split(spec, Newline), template)
  }

  /** The handler's algorithm on the document text and its lines. */
  function UpsertLines(spec: string, lines: seq<string>, template: seq<string>): string {
    match FindHeader(lines, OpenapiKey)
    case None => Join(template, Newline) + [Newline] + spec
    case Some(openapiIndex) =>
      match FindHeader(lines, InfoKey)
      case Some(infoIndex) =>
        var endIndex := SectionEnd(lines, infoIndex);
        Join(Splice(lines, infoIndex, endIndex - infoIndex, template), Newline)
      case None =>
        Join(Splice(lines, openapiIndex + 1, 0, template), Newline)
  }

  /** What the proofs need of the template: a section template for `info:`
      with no `openapi:` header in it and an indented body. */
  ghost predicate InfoShaped(template: seq<string>) {
    && IsTemplate(template, InfoKey)
    && (forall i | 0 <= i < |template| :: !IsHeader(template[i], OpenapiKey))
    && (forall i | 1 <= i < |template| :: IsIndented(template[i]))
  }

  /** The template has 13 lines and no trailing newline: its first line is the
      only `info:` header, no line is an `openapi:` header, every line after
      the first is indented, and splitting the snippet gives its lines back. */
  lemma InfoSnippetShape()
    ensures |InfoSnippetLines| == 13
    ensures InfoShaped(InfoSnippetLines)
    ensures Split(InfoSnippet, Newline) == InfoSnippetLines
  {
    InfoSnippetHeaderLine();
    InfoSnippetBody();
    BodyLinesShaped(InfoSnippetLines, InfoSnippetIndents);
    SplitJoin(InfoSnippetLines, Newline);
  }

  /** How far each line of the template is indented. */
  const InfoSnippetIndents: seq<nat> := [0, 2, 2, 4, 2, 2, 4, 4, 4, 2, 4, 4, 2]

  /** A template body line: indented, and its text starts with neither the
      `i` of `info:` nor the `o` of `openapi:`. */
  ghost predicate InfoBodyLine(line: string, n: nat) {
    IndentedBy(line, n) && line[n] != 'i' && line[n] != 'o'
  }

  /** The template's first line is an `info:` header and nothing else. */
  lemma InfoSnippetHeaderLine()
    ensures IsHeader(InfoSnippetLines[0], InfoKey) && !IsHeader(InfoSnippetLines[0], OpenapiKey)
    ensures Newline !in InfoSnippetLines[0]
  {
    StartsWithHeader(InfoSnippetLines[0], InfoKey);
    IndentedNotHeader(InfoSnippetLines[0], 0, OpenapiKey, 0);
  }

  /** Each of the template's lines after the first is a body line. */
  lemma InfoSnippetBody()
    ensures |InfoSnippetLines| == |InfoSnippetIndents| == 13
    ensures forall i | 1 <= i < 13 :: InfoBodyLine(InfoSnippetLines[i], InfoSnippetIndents[i])
  {
    InfoSnippetLine1();
    InfoSnippetLine2();
    InfoSnippetLine3();
    InfoSnippetLine4();
    InfoSnippetLine5();
    InfoSnippetLine6();
    InfoSnippetLine7();
    InfoSnippetLine8();
    InfoSnippetLine9();
    InfoSnippetLine10();
    InfoSnippetLine11();
    InfoSnippetLine12();
    forall i | 1 <= i < 13 ensures InfoBodyLine(InfoSnippetLines[i], InfoSnippetIndents[i]) {
      assert i == 1 || i == 2 || i == 3 || i == 4 || i == 5 || i == 6 || i == 7 || i == 8 || i == 9 || i == 10 || i == 11 || i == 12;
    }
  }

  /** Body lines are indented, free of newlines, and neither `info:` nor
      `openapi:` headers. */
  lemma BodyLinesShaped(template: seq<string>, indents: seq<nat>)
    requires |template| == |indents|
    requires forall i | 1 <= i < |template| :: InfoBodyLine(template[i], indents[i])
    ensures forall i | 1 <= i < |template| :: IsIndented(template[i]) && Newline !in template[i]
    ensures forall i | 1 <= i < |template| :: !IsHeader(template[i], InfoKey) && !IsHeader(template[i], OpenapiKey)
  {
    forall i | 1 <= i < |template|
      ensures IsIndented(template[i]) && Newline !in template[i]
      ensures !IsHeader(template[i], InfoKey) && !IsHeader(template[i], OpenapiKey)
    {
      IndentedNotHeader(template[i], indents[i], InfoKey, 0);
      IndentedNotHeader(template[i], indents[i], OpenapiKey, 0);
    }
  }

  // The template's body lines, one literal at a time. Each line gets its own
  // small lemma so that each solver query unfolds a single literal, which
  // keeps the snippet lemma's own proof cheap.
  lemma InfoSnippetLine1() ensures InfoBodyLine(InfoSnippetLines[1], 2) {}
  lemma InfoSnippetLine2() ensures InfoBodyLine(InfoSnippetLines[2], 2) {}
  lemma InfoSnippetLine3() ensures InfoBodyLine(InfoSnippetLines[3], 4) {
    var a, b, c := "    This is a sample API to demonstrate", " the info object in an", " OpenAPI definition.";
    DescriptionHead();
    DescriptionTail();
    IndentedByAppend(a, b, 4);
    IndentedByAppend(a + b, c, 4);
  }

  lemma DescriptionHead() ensures InfoBodyLine("    This is a sample API to demonstrate", 4) {}

  lemma DescriptionTail() ensures Newline !in " the info object in an" && Newline !in " OpenAPI definition." {}

  lemma InfoSnippetLine4() ensures InfoBodyLine(InfoSnippetLines[4], 2) {}
  lemma InfoSnippetLine5() ensures InfoBodyLine(InfoSnippetLines[5], 2) {}
  lemma InfoSnippetLine6() ensures InfoBodyLine(InfoSnippetLines[6], 4) {}
  lemma InfoSnippetLine7() ensures InfoBodyLine(InfoSnippetLines[7], 4) {}
  lemma InfoSnippetLine8() ensures InfoBodyLine(InfoSnippetLines[8], 4) {}
  lemma InfoSnippetLine9() ensures InfoBodyLine(InfoSnippetLines[9], 2) {}
  lemma InfoSnippetLine10() ensures InfoBodyLine(InfoSnippetLines[10], 4) {}
  lemma InfoSnippetLine11() ensures InfoBodyLine(InfoSnippetLines[11], 4) {}
  lemma InfoSnippetLine12() ensures InfoBodyLine(InfoSnippetLines[12], 2) {}

  /** Replace branch: the lines before the first `info:` header and from the
      end of its indented block on are kept verbatim and in order, with exactly
      the 13 template lines between them and no blank line added. Later
      `info:` lines are left alone. */
  lemma InfoReplace(spec: string, k: nat, e: nat)
    requires HasHeader(Split(spec, Newline), OpenapiKey)
    requires FirstHeaderAt(Split(spec, Newline), InfoKey, k)
    requires SectionEndsAt(Split(spec, Newline), k, e)
    ensures var lines := Split(spec, Newline);
      Split(AddOrReplaceInfo(spec), Newline) == lines[..k] + InfoSnippetLines + lines[e..]
  {
    InfoSnippetShape();
    UpsertReplace(spec, InfoSnippetLines, k, e);
  }

  /** Insert branch: with an `openapi:` header at `o` and no `info:` header,
      the template's lines go right after line `o` and every original line is
      kept in order; the document grows by exactly 13 lines. */
  lemma InfoInsert(spec: string, o: nat)
    requires FirstHeaderAt(Split(spec, Newline), OpenapiKey, o)
    requires !HasHeader(Split(spec, Newline), InfoKey)
    ensures var lines := Split(spec, Newline);
      && Split(AddOrReplaceInfo(spec), Newline) == lines[..o + 1] + InfoSnippetLines + lines[o + 1..]
      && |Split(AddOrReplaceInfo(spec), Newline)| == |lines| + 13
  {
    InfoSnippetShape();
    UpsertInsert(spec, InfoSnippetLines, o);
  }

  /** Whatever branch runs, the first `info:` header of the result starts the
      13 template lines. */
  lemma InfoTemplateInstalled(spec: string)
    ensures TemplateAtFirstHeader(Split(AddOrReplaceInfo(spec), Newline), InfoSnippetLines, InfoKey)
  {
    InfoSnippetShape();
    UpsertInstalled(spec, InfoSnippetLines);
  }

  /** Idempotence of the replace branch: when the first `openapi:` line lies
      outside the replaced `info:` section, applying the handler a second time
      changes nothing. The template's body lines are indented and the line
      after the old section is not, so the second run finds exactly the
      template as the section to replace. */
  lemma InfoIdempotentAfterReplace(spec: string, o: nat, k: nat, e: nat)
    requires FirstHeaderAt(Split(spec, Newline), OpenapiKey, o)
    requires FirstHeaderAt(Split(spec, Newline), InfoKey, k)
    requires SectionEndsAt(Split(spec, Newline), k, e)
    requires o < k || e <= o
    ensures AddOrReplaceInfo(AddOrReplaceInfo(spec)) == AddOrReplaceInfo(spec)
  {
    InfoSnippetShape();
    UpsertIdempotent(spec, InfoSnippetLines, o, k, e);
  }

  /** The side condition of idempotence is needed: when the only `openapi:`
      header sits inside the replaced `info:` section, the first run deletes it
      and the second run falls back to prepending another template. */
  lemma InfoReapplyPrependsWhenOpenapiInsideInfo(spec: string, o: nat, k: nat, e: nat)
    requires FirstHeaderAt(Split(spec, Newline), OpenapiKey, o)
    requires FirstHeaderAt(Split(spec, Newline), InfoKey, k)
    requires SectionEndsAt(Split(spec, Newline), k, e)
    requires k < o < e
    requires forall j | e <= j < |Split(spec, Newline)| :: !IsHeader(Split(spec, Newline)[j], OpenapiKey)
    ensures AddOrReplaceInfo(AddOrReplaceInfo(spec)) == InfoSnippet + [Newline] + AddOrReplaceInfo(spec)
    ensures AddOrReplaceInfo(AddOrReplaceInfo(spec)) != AddOrReplaceInfo(spec)
  {
    InfoSnippetShape();
    UpsertReapplyPrepends(spec, InfoSnippetLines, o, k, e);
  }

  // The same properties for any template of the right shape.

  lemma UpsertReplace(spec: string, template: seq<string>, k: nat, e: nat)
    requires IsTemplate(template, InfoKey)
    requires HasHeader(Split(spec, Newline), OpenapiKey)
    requires FirstHeaderAt(Split(spec, Newline), InfoKey, k)
    requires SectionEndsAt(Split(spec, Newline), k, e)
    ensures var lines := Split(spec, Newline);
      Split(UpsertInfo(spec, template), Newline) == lines[..k] + template + lines[e..]
  {
    var lines := Split(spec, Newline);
    ReplaceText(spec, template, k, e);
    SplicedLines(spec, k, e, template, InfoKey);
  }

  lemma UpsertInsert(spec: string, template: seq<string>, o: nat)
    requires IsTemplate(template, InfoKey)
    requires FirstHeaderAt(Split(spec, Newline), OpenapiKey, o)
    requires !HasHeader(Split(spec, Newline), InfoKey)
    ensures var lines := Split(spec, Newline);
      Split(UpsertInfo(spec, template), Newline) == lines[..o + 1] + template + lines[o + 1..]
  {
    var lines := Split(spec, Newline);
    InsertText(spec, template, o);
    SplicedLines(spec, o + 1, o + 1, template, InfoKey);
  }

  /** The text the replace branch produces. */
  lemma ReplaceText(spec: string, template: seq<string>, k: nat, e: nat)
    requires HasHeader(Split(spec, Newline), OpenapiKey)
    requires FirstHeaderAt(Split(spec, Newline), InfoKey, k)
    requires SectionEndsAt(Split(spec, Newline), k, e)
    ensures var lines := Split(spec, Newline);
      UpsertInfo(spec, template) == Join(Splice(lines, k, e - k, template), Newline)
  {
    ReplaceLines(spec, Split(spec, Newline), template, k, e);
  }

  lemma ReplaceLines(spec: string, lines: seq<string>, template: seq<string>, k: nat, e: nat)
    requires HasHeader(lines, OpenapiKey)
    requires FirstHeaderAt(lines, InfoKey, k)
    requires SectionEndsAt(lines, k, e)
    ensures UpsertLines(spec, lines, template) == Join(Splice(lines, k, e - k, template), Newline)
  {
    FirstHeaderUnique(lines, InfoKey, FindHeader(lines, InfoKey).value, k);
    SectionEndUnique(lines, k, SectionEnd(lines, k), e);
    assert FindHeader(lines, InfoKey) == Some(k);
  }

  /** The text the insert branch produces. */
  lemma InsertText(spec: string, template: seq<string>, o: nat)
    requires FirstHeaderAt(Split(spec, Newline), OpenapiKey, o)
    requires !HasHeader(Split(spec, Newline), InfoKey)
    ensures var lines := Split(spec, Newline);
      UpsertInfo(spec, template) == Join(Splice(lines, o + 1, 0, template), Newline)
  {
    var lines := Split(spec, Newline);
    FirstHeaderUnique(lines, OpenapiKey, FindHeader(lines, OpenapiKey).value, o);
  }

  lemma UpsertInstalled(spec: string, template: seq<string>)
    requires IsTemplate(template, InfoKey)
    ensures TemplateAtFirstHeader(Split(UpsertInfo(spec, template), Newline), template, InfoKey)
  {
    var lines := Split(spec, Newline);
    match FindHeader(lines, OpenapiKey)
    case None =>
      SplitPrepended(template, InfoKey, spec);
      SpliceInstallsTemplate(lines, 0, 0, template, InfoKey);
      assert Splice(lines, 0, 0, template) == template + lines;
    case Some(o) =>
      match FindHeader(lines, InfoKey)
      case Some(k) =>
        var e := SectionEnd(lines, k);
        UpsertReplace(spec, template, k, e);
        SpliceInstallsTemplate(lines, k, e - k, template, InfoKey);
      case None =>
        UpsertInsert(spec, template, o);
        SpliceInstallsTemplate(lines, o + 1, 0, template, InfoKey);
  }

  lemma UpsertIdempotent(spec: string, template: seq<string>, o: nat, k: nat, e: nat)
    requires InfoShaped(template)
    requires FirstHeaderAt(Split(spec, Newline), OpenapiKey, o)
    requires FirstHeaderAt(Split(spec, Newline), InfoKey, k)
    requires SectionEndsAt(Split(spec, Newline), k, e)
    requires o < k || e <= o
    ensures UpsertInfo(UpsertInfo(spec, template), template) == UpsertInfo(spec, template)
  {
    var lines := Split(spec, Newline);
    UpsertReplace(spec, template, k, e);
    ReplacedSection(lines, template, o, k, e);
    UpsertKeepsTemplate(UpsertInfo(spec, template), template, k);
  }

  /** After the replace, the template is the whole of the first `info:`
      section and an `openapi:` header outside the old section survives. */
  lemma ReplacedSection(lines: seq<string>, template: seq<string>, o: nat, k: nat, e: nat)
    requires InfoShaped(template)
    requires FirstHeaderAt(lines, OpenapiKey, o)
    requires FirstHeaderAt(lines, InfoKey, k)
    requires SectionEndsAt(lines, k, e)
    requires o < k || e <= o
    ensures var L1 := Splice(lines, k, e - k, template);
      && HasHeader(L1, OpenapiKey)
      && FirstHeaderAt(L1, InfoKey, k)
      && k + |template| <= |L1| && L1[k..k + |template|] == template
      && SectionEndsAt(L1, k, k + |template|)
  {
    var L1 := Splice(lines, k, e - k, template);
    var n := |template|;
    SpliceKeepsHeader(lines, k, e - k, template, OpenapiKey, o);
    SpliceFirstHeader(lines, k, e - k, template, InfoKey);
    if k + n < |L1| {
      assert L1[k + n] == lines[e];
    }
    SectionEndsAtTemplate(L1, k, template, n);
  }

  lemma UpsertKeepsTemplate(spec: string, template: seq<string>, k: nat)
    requires IsTemplate(template, InfoKey)
    requires HasHeader(Split(spec, Newline), OpenapiKey)
    requires FirstHeaderAt(Split(spec, Newline), InfoKey, k)
    requires k + |template| <= |Split(spec, Newline)|
    requires Split(spec, Newline)[k..k + |template|] == template
    requires SectionEndsAt(Split(spec, Newline), k, k + |template|)
    ensures UpsertInfo(spec, template) == spec
  {
    var lines := Split(spec, Newline);
    UpsertReplace(spec, template, k, k + |template|);
    SpliceInPlace(lines, k, template);
    SameLines(UpsertInfo(spec, template), spec);
  }

  lemma UpsertReapplyPrepends(spec: string, template: seq<string>, o: nat, k: nat, e: nat)
    requires InfoShaped(template)
    requires FirstHeaderAt(Split(spec, Newline), OpenapiKey, o)
    requires FirstHeaderAt(Split(spec, Newline), InfoKey, k)
    requires SectionEndsAt(Split(spec, Newline), k, e)
    requires k < o < e
    requires forall j | e <= j < |Split(spec, Newline)| :: !IsHeader(Split(spec, Newline)[j], OpenapiKey)
    ensures var r1 := UpsertInfo(spec, template);
      UpsertInfo(r1, template) == Join(template, Newline) + [Newline] + r1
  {
    var lines := Split(spec, Newline);
    var r1 := UpsertInfo(spec, template);
    UpsertReplace(spec, template, k, e);
    SpliceNoHeader(lines, k, e - k, template, OpenapiKey);
    UpsertPrepends(r1, template);
  }

  lemma UpsertPrepends(spec: string, template: seq<string>)
    requires !HasHeader(Split(spec, Newline), OpenapiKey)
    ensures UpsertInfo(spec, template) == Join(template, Newline) + [Newline] + spec
  {
  }
}
