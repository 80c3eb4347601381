/** `validateOpenAPI` and `getLineFromOffset`: turning the schema validator's
    findings on the editor text into the list of errors the editor shows, each
    with the line of the offending node when it can be found.

    Parsing the YAML text and running the schema validator happen in
    libraries; their combined outcome is a parameter here. What the editor's
    own code does with that outcome is modelled exactly: the blank-text guard,
    the exception message, the mapping of each validator error, the walk down
    the document along the error's instance path, and the line computation. */
module Validation {
  import opened Options
  import opened Text

  /** The character the validator's instance paths are split on. */
  const Slash: char := '/'

  /** The end index `text.slice(0, k)` uses: a negative `k` counts back from
      the end of the text, and an index past the end is clamped to it. */
  function SliceEnd(len: nat, k: int): (r: nat)
    ensures r <= len
  {
    if k < 0 then (if len + k < 0 then 0 else len + k)
    else if k > len then len
    else k
  }

  /** `getLineFromOffset`: the number of pieces of the text before `offset`
      split at newlines. That is one more than the number of newlines before
      the offset: the 1-based number of the line the offset is on. */
  function GetLineFromOffset(text: string, offset: int): (n: nat)
    ensures n == 1 + Count(text[..SliceEnd(|text|, offset)], Newline)
    ensures SliceEnd(|text|, offset) == 0 ==> n == 1
    ensures offset >= |text| ==> n == |Split(text, Newline)|
  {
    assert offset >= |text| ==> text[..SliceEnd(|text|, offset)] == text;
    SplitFacts(text[..SliceEnd(|text|, offset)], Newline);
    |Split(text[..SliceEnd(|text|, offset)], Newline)|
  }

  /** Between 0 and the end of the text, a later offset is never on an
      earlier line. */
  lemma LineMonotone(text: string, a: int, b: int)
    requires 0 <= a <= b
    ensures GetLineFromOffset(text, a) <= GetLineFromOffset(text, b)
  {
    CountPrefixMonotone(text, SliceEnd(|text|, a), SliceEnd(|text|, b), Newline);
  }

  /** Every offset is on one of the text's lines. */
  lemma LineWithinText(text: string, offset: int)
    ensures 1 <= GetLineFromOffset(text, offset) <= |Split(text, Newline)|
  {
    CountPrefixMonotone(text, SliceEnd(|text|, offset), |text|, Newline);
    assert text[..|text|] == text;
    SplitFacts(text, Newline);
  }

  /** The offset really is on line `n`: the text before it is the first
      `n - 1` lines of the text, whole, followed by the beginning of line
      `n`. */
  lemma OffsetLiesOnLine(text: string, offset: nat)
    requires offset <= |text|
    ensures var lines := Split(text, Newline);
      var before := Split(text[..offset], Newline);
      var n := GetLineFromOffset(text, offset);
      && n == |before| <= |lines|
      && lines[..n - 1] == before[..n - 1]
      && StartsWith(lines[n - 1], before[n - 1])
      && text[..offset] == Join(before, Newline)
  {
    var a, b := text[..offset], text[offset..];
    assert a + b == text;
    SplitAppend(a, b, Newline);
    JoinSplit(a, Newline);
    var A, B := Split(a, Newline), Split(b, Newline);
    var lines := Split(text, Newline);
    assert lines[..|A| - 1] == A[..|A| - 1];
    assert lines[|A| - 1] == A[|A| - 1] + B[0];
  }

  // The parsed document, as far as the lookup of an error's node sees it.

  /** A YAML node with the offset in the text where it starts. */
  datatype Node =
    | MapNode(entries: seq<Entry>, start: nat)
    | SeqNode(items: seq<Node>, start: nat)
    | ScalarNode(start: nat)
    | AliasNode(start: nat)

  /** A map entry. The key is `None` unless it is a string scalar: a key such
      as an unquoted `200` is a number and never equals a path segment. */
  datatype Entry = Entry(key: Option<string>, value: Node)

  /** The parsed document: its contents (none for an empty document) and
      where it starts. */
  datatype Document = Document(contents: Option<Node>, start: nat)

  /** One error reported by the schema validator; either field may be
      missing. */
  datatype ValidatorError = ValidatorError(instancePath: Option<string>, message: Option<string>)

  /** One error as the editor shows it. */
  datatype OpenApiError = OpenApiError(message: string, line: Option<nat>)

  /** What parsing and validating the text produced: an exception with its
      message, or the document and the validator's errors. */
  datatype Outcome =
    | Threw(message: string)
    | Checked(doc: Document, errors: seq<ValidatorError>)

  /** `instancePath?.split("/").filter(Boolean) || []`: the non-empty pieces
      of the path between slashes; none for a missing path. */
  function SplitPath(instancePath: Option<string>): (r: seq<string>)
    ensures forall i | 0 <= i < |r| :: r[i] != "" && Slash !in r[i]
    ensures instancePath.None? ==> r == []
  {
    match instancePath
    case None => []
    case Some(p) => SplitFacts(p, Slash); NonEmpty(Split(p, Slash))
  }

  /** `filter(Boolean)` on strings: the non-empty ones, in order. */
  function NonEmpty(parts: seq<string>): (r: seq<string>)
    ensures |r| <= |parts|
    ensures forall i | 0 <= i < |r| :: r[i] != "" && r[i] in parts
    ensures forall i | 0 <= i < |parts| :: parts[i] != "" ==> parts[i] in r
  {
    if |parts| == 0 then []
    else
      var rest := NonEmpty(parts[1..]);
      assert forall i | 1 <= i < |parts| :: parts[i] == parts[1..][i - 1];
      if parts[0] == "" then rest else [parts[0]] + rest
  }

  /** Filtering a list with no empty strings keeps it whole. */
  lemma {:induction false} NonEmptyKeepsAll(parts: seq<string>)
    requires forall i | 0 <= i < |parts| :: parts[i] != ""
    ensures NonEmpty(parts) == parts
  {
    if |parts| > 0 {
      NonEmptyKeepsAll(parts[1..]);
      assert [parts[0]] + parts[1..] == parts;
    }
  }

  /** `filter(Boolean)` keeps order and repeats: filtering a concatenation
      filters each part in turn, and a single string is kept exactly when
      it is non-empty. */
  lemma {:induction false} NonEmptyAppend(a: seq<string>, b: seq<string>)
    ensures NonEmpty(a + b) == NonEmpty(a) + NonEmpty(b)
    ensures |a| == 1 && a[0] == "" ==> NonEmpty(a) == []
    ensures |a| == 1 && a[0] != "" ==> NonEmpty(a) == a
    decreases |a|
  {
    if |a| == 0 {
      assert a + b == b;
    } else {
      assert (a + b)[1..] == a[1..] + b;
      NonEmptyAppend(a[1..], b);
      if |a| == 1 {
        assert a[1..] == [];
      }
    }
  }

  /** The path's segments are the pieces between its slashes, in order and
      with repeats, the empty ones dropped: a path made of slash-free pieces,
      empty ones included, splits into exactly its non-empty pieces. */
  lemma SplitPathJoin(pieces: seq<string>)
    requires |pieces| > 0 && SeparatorFree(pieces, Slash)
    ensures SplitPath(Some(Join(pieces, Slash))) == NonEmpty(pieces)
  {
    SplitJoin(pieces, Slash);
  }

  /** An instance path written as `/` followed by the segments joined by
      `/` splits back into the segments, provided each is non-empty and
      contains no slash. */
  lemma SplitPathRoundTrip(segments: seq<string>)
    requires forall i | 0 <= i < |segments| :: segments[i] != "" && Slash !in segments[i]
    ensures SplitPath(Some(Join([""] + segments, Slash))) == segments
  {
    var parts := [""] + segments;
    assert SeparatorFree(parts, Slash) by {
      forall i | 0 <= i < |parts| ensures Slash !in parts[i] {
        if i > 0 {
          assert parts[i] == segments[i - 1];
        }
      }
    }
    SplitJoin(parts, Slash);
    assert parts[1..] == segments;
    NonEmptyKeepsAll(segments);
  }

  /** The decimal number a path segment names when it is made of digits
      only; sequence items are looked up only by such segments. */
  function ParseIndex(s: string): (r: Option<nat>)
    ensures r.Some? <==> |s| > 0 && forall i | 0 <= i < |s| :: '0' <= s[i] <= '9'
  {
    if |s| == 0 then None
    else if !('0' <= s[|s| - 1] <= '9') then None
    else if |s| == 1 then Some(s[0] as int - '0' as int)
    else
      match ParseIndex(s[..|s| - 1])
      case None => None
      case Some(v) => Some(10 * v + (s[|s| - 1] as int - '0' as int))
  }

  /** The decimal digits of `n`, without leading zeros. */
  function Decimal(n: nat): (r: string)
    ensures |r| > 0 && forall i | 0 <= i < |r| :: '0' <= r[i] <= '9'
  {
    var d := [('0' as int + n % 10) as char];
    if n < 10 then d else Decimal(n / 10) + d
  }

  /** A segment holding the decimal digits of `n` names index `n`. */
  lemma {:induction false} ParseIndexDecimal(n: nat)
    ensures ParseIndex(Decimal(n)) == Some(n)
  {
    if n >= 10 {
      ParseIndexDecimal(n / 10);
      var s := Decimal(n);
      assert s[..|s| - 1] == Decimal(n / 10);
    }
  }

  /** What `get` gives back for a child: scalars come back as their plain
      value, which has neither a position nor a `get` of its own, so the
      walk stops there. */
  function AsNode(child: Node): Option<Node> {
    if child.ScalarNode? then None else Some(child)
  }

  /** The first entry of a map with the given key. */
  function FindEntry(entries: seq<Entry>, key: string): (r: Option<nat>)
    ensures r.None? <==> forall j | 0 <= j < |entries| :: entries[j].key != Some(key)
    ensures r.Some? ==> r.value < |entries| && entries[r.value].key == Some(key)
    ensures r.Some? ==> forall j | 0 <= j < r.value :: entries[j].key != Some(key)
  {
    if |entries| == 0 then None
    else if entries[0].key == Some(key) then Some(0)
    else
      match FindEntry(entries[1..], key)
      case None => None
      case Some(j) => Some(j + 1)
  }

  /** `node?.get?.(key)`: a map looks the key up among its entries, a
      sequence reads the key as an index, and scalars and aliases have no
      children. */
  function Child(node: Node, key: string): (r: Option<Node>)
    ensures r.Some? ==> !r.value.ScalarNode?
    ensures node.ScalarNode? || node.AliasNode? ==> r.None?
    ensures node.MapNode? ==> var found := FindEntry(node.entries, key);
      && (r.Some? <==> found.Some? && !node.entries[found.value].value.ScalarNode?)
      && (r.Some? ==> r.value == node.entries[found.value].value)
    ensures node.SeqNode? ==> var index := ParseIndex(key);
      && (r.Some? <==> index.Some? && index.value < |node.items| && !node.items[index.value].ScalarNode?)
      && (r.Some? ==> r.value == node.items[index.value])
  {
    match node
    case MapNode(entries, _) =>
      (match FindEntry(entries, key)
       case None => None
       case Some(i) => AsNode(entries[i].value))
    case SeqNode(items, _) =>
      (match ParseIndex(key)
       case Some(i) => if i < |items| then AsNode(items[i]) else None
       case None => None)
    case ScalarNode(_) => None
    case AliasNode(_) => None
  }

  /** `path.reduce((acc, key) => acc?.get?.(key), start)`: follow the path
      one key at a time; once a step finds nothing, so does the rest. */
  function Resolve(start: Option<Node>, path: seq<string>): (r: Option<Node>)
    ensures start.None? ==> r.None?
    ensures path == [] ==> r == start
    decreases |path|
  {
    if |path| == 0 || start.None? then start
    else Resolve(Child(start.value, path[0]), path[1..])
  }

  /** Following a path in two parts is following the first part and then
      the second from wherever the first ended. */
  lemma {:induction false} ResolveAppend(start: Option<Node>, p: seq<string>, q: seq<string>)
    ensures Resolve(start, p + q) == Resolve(Resolve(start, p), q)
    decreases |p|
  {
    if |p| > 0 && start.Some? {
      assert (p + q)[0] == p[0] && (p + q)[1..] == p[1..] + q;
      ResolveAppend(Child(start.value, p[0]), p[1..], q);
    } else if |p| == 0 {
      assert p + q == q;
    }
  }

  /** The start offset of the node an error's path leads to. The walk starts
      at the document: with no segments the document itself is the node,
      otherwise the first step is taken in its contents. */
  function ErrorOffset(doc: Document, path: seq<string>): (r: Option<nat>)
    ensures path == [] ==> r == Some(doc.start)
    ensures path != [] && doc.contents.None? ==> r.None?
    ensures path != [] ==> (r.Some? <==> Resolve(doc.contents, path).Some?)
    ensures path != [] && r.Some? ==> r.value == Resolve(doc.contents, path).value.start
  {
    if path == [] then Some(doc.start)
    else
      match Resolve(doc.contents, path)
      case None => None
      case Some(node) => Some(node.start)
  }

  /** The line the editor reports for a node starting at `offset`:
      `getLineFromOffset(spec, offset) + 1`. */
  function ReportedLine(spec: string, offset: nat): (line: nat)
    ensures line == 2 + Count(spec[..SliceEnd(|spec|, offset)], Newline)
  {
    GetLineFromOffset(spec, offset) + 1
  }

  /** When some step of the walk finds nothing, the error gets no line: a
      line is shown only if every prefix of the path leads to a node. */
  lemma MissingStepLosesLine(spec: string, doc: Document, err: ValidatorError, k: nat)
    requires 0 < k <= |SplitPath(err.instancePath)|
    requires Resolve(doc.contents, SplitPath(err.instancePath)[..k]).None?
    ensures MapError(spec, doc, err).line.None?
  {
    var p := SplitPath(err.instancePath);
    assert p == p[..k] + p[k..];
    ResolveAppend(doc.contents, p[..k], p[k..]);
  }

  /** One validator error as the editor shows it: its message, or "Unknown
      error" when it has none, and the reported line of the node its instance
      path leads to, when that node is found. */
  function MapError(spec: string, doc: Document, err: ValidatorError): (r: OpenApiError)
    ensures err.message.Some? ==> r.message == err.message.value
    ensures err.message.None? ==> r.message == "Unknown error"
    ensures var offset := ErrorOffset(doc, SplitPath(err.instancePath));
      && (r.line.Some? <==> offset.Some?)
      && (offset.Some? ==> r.line == Some(2 + Count(spec[..SliceEnd(|spec|, offset.value)], Newline)))
  {
    var line :=
      match ErrorOffset(doc, SplitPath(err.instancePath))
      case None => None
      case Some(offset) => Some(ReportedLine(spec, offset));
    OpenApiError(err.message.GetOr("Unknown error"), line)
  }

  /** The text counts as blank when `trim()` leaves nothing of it. */
  predicate Blank(spec: string) {
    Trim(spec) == ""
  }

  /** `validateOpenAPI`, as the error list it leaves behind. For blank text
      the setter is not called, so the previous list stays. An exception
      becomes a single error without a line. Otherwise each validator error
      becomes one shown error, in the same order; with no validator errors
      the list is emptied. */
  function ValidateOpenAPI(spec: string, previous: seq<OpenApiError>, outcome: Outcome): (r: seq<OpenApiError>)
    ensures (forall i | 0 <= i < |spec| :: IsWhitespace(spec[i])) ==> r == previous
    ensures (exists i | 0 <= i < |spec| :: !IsWhitespace(spec[i])) && outcome.Threw? ==>
      r == [OpenApiError("OpenAPI validation failed: " + outcome.message, None)]
    ensures (exists i | 0 <= i < |spec| :: !IsWhitespace(spec[i])) && outcome.Checked? ==>
      && |r| == |outcome.errors|
      && forall i | 0 <= i < |r| :: r[i] == MapError(spec, outcome.doc, outcome.errors[i])
  {
    TrimFacts(spec);
    if Blank(spec) then previous
    else
      match outcome
      case Threw(message) => [OpenApiError("OpenAPI validation failed: " + message, None)]
      case Checked(doc, errors) =>
        if |errors| > 0 then seq(|errors|, i requires 0 <= i < |errors| => MapError(spec, doc, errors[i]))
        else []
  }

  /** Every line reported for a validated text is at least 2 and at most one
      past the text's last line: always one more than the line the node is
      on. */
  lemma ReportedLinesInRange(spec: string, previous: seq<OpenApiError>, doc: Document, errors: seq<ValidatorError>)
    requires exists i | 0 <= i < |spec| :: !IsWhitespace(spec[i])
    ensures var r := ValidateOpenAPI(spec, previous, Checked(doc, errors));
      forall i | 0 <= i < |r| && r[i].line.Some? ::
        2 <= r[i].line.value <= |Split(spec, Newline)| + 1
  {
    var r := ValidateOpenAPI(spec, previous, Checked(doc, errors));
    forall i | 0 <= i < |r| && r[i].line.Some?
      ensures 2 <= r[i].line.value <= |Split(spec, Newline)| + 1
    {
      var offset := ErrorOffset(doc, SplitPath(errors[i].instancePath)).value;
      LineWithinText(spec, offset);
    }
  }

  /** For every text and document, an error about the whole document, whose
      node starts at offset 0 and so on line 1, is reported on line 2. */
  lemma WholeDocumentReportedOnLineTwo(spec: string, contents: Option<Node>, message: Option<string>)
    ensures MapError(spec, Document(contents, 0), ValidatorError(None, message)).line == Some(2)
    ensures GetLineFromOffset(spec, 0) == 1
  {
  }

  /** The mapping with the line of the node itself and with the instance
      path's segments decoded. */
  function CorrectedMapError(spec: string, doc: Document, err: ValidatorError): (r: OpenApiError)
    ensures err.message.Some? ==> r.message == err.message.value
    ensures err.message.None? ==> r.message == "Unknown error"
    ensures var offset := ErrorOffset(doc, DecodedPath(err.instancePath));
      && (r.line.Some? <==> offset.Some?)
      && (offset.Some? ==> r.line == Some(1 + Count(spec[..SliceEnd(|spec|, offset.value)], Newline)))
  {
    var line :=
      match ErrorOffset(doc, DecodedPath(err.instancePath))
      case None => None
      case Some(offset) => Some(GetLineFromOffset(spec, offset));
    OpenApiError(err.message.GetOr("Unknown error"), line)
  }

  /** With the correction, the reported line is the line the node starts on:
      the text before the node is the lines above it, whole, and the start of
      that line; and it is always one of the text's lines. */
  lemma CorrectedLineHoldsNode(spec: string, doc: Document, err: ValidatorError)
    requires ErrorOffset(doc, DecodedPath(err.instancePath)).Some?
    requires ErrorOffset(doc, DecodedPath(err.instancePath)).value <= |spec|
    ensures var offset := ErrorOffset(doc, DecodedPath(err.instancePath)).value;
      var lines := Split(spec, Newline);
      var before := Split(spec[..offset], Newline);
      var n := CorrectedMapError(spec, doc, err).line.value;
      && 1 <= n <= |lines|
      && lines[..n - 1] == before[..n - 1]
      && StartsWith(lines[n - 1], before[n - 1])
  {
    var offset := ErrorOffset(doc, DecodedPath(err.instancePath)).value;
    OffsetLiesOnLine(spec, offset);
  }

  // Instance paths are JSON Pointers (RFC 6901): inside a segment, `~` is
  // written `~0` and `/` is written `~1`.

  /** A key written as a JSON Pointer segment. */
  function Escape(key: string): (r: string)
    ensures Slash !in r
    ensures |r| >= |key|
  {
    if |key| == 0 then ""
    else
      var head := if key[0] == '~' then "~0" else if key[0] == '/' then "~1" else [key[0]];
      head + Escape(key[1..])
  }

  /** A JSON Pointer segment decoded back to its key, per section 4 of
      RFC 6901. */
  function Unescape(segment: string): (r: string)
    ensures |r| <= |segment|
  {
    if |segment| == 0 then ""
    else if |segment| >= 2 && segment[0] == '~' && segment[1] == '1' then "/" + Unescape(segment[2..])
    else if |segment| >= 2 && segment[0] == '~' && segment[1] == '0' then "~" + Unescape(segment[2..])
    else [segment[0]] + Unescape(segment[1..])
  }

  /** Decoding undoes encoding. */
  lemma {:induction false} UnescapeEscape(key: string)
    ensures Unescape(Escape(key)) == key
  {
    if |key| > 0 {
      UnescapeEscape(key[1..]);
      var head := if key[0] == '~' then "~0" else if key[0] == '/' then "~1" else [key[0]];
      var rest := Escape(key[1..]);
      assert Escape(key) == head + rest;
      if key[0] == '~' || key[0] == '/' {
        assert (head + rest)[2..] == rest;
      } else {
        assert (head + rest)[1..] == rest;
      }
      assert [key[0]] + key[1..] == key;
    }
  }

  /** The instance path's segments, decoded. */
  function DecodedPath(instancePath: Option<string>): (r: seq<string>)
    ensures |r| == |SplitPath(instancePath)|
    ensures forall i | 0 <= i < |r| :: r[i] == Unescape(SplitPath(instancePath)[i])
  {
    var raw := SplitPath(instancePath);
    seq(|raw|, i requires 0 <= i < |raw| => Unescape(raw[i]))
  }

  /** The JSON Pointer to a sequence of non-empty keys. */
  function Pointer(keys: seq<string>): string {
    Join([""] + seq(|keys|, i requires 0 <= i < |keys| => Escape(keys[i])), Slash)
  }

  /** Decoding the path the validator reports for a list of keys gives the
      keys back, whatever characters they hold. */
  lemma DecodedPathRoundTrip(keys: seq<string>)
    requires forall i | 0 <= i < |keys| :: keys[i] != ""
    ensures DecodedPath(Some(Pointer(keys))) == keys
  {
    var escaped := seq(|keys|, i requires 0 <= i < |keys| => Escape(keys[i]));
    SplitPathRoundTrip(escaped);
    forall i | 0 <= i < |keys| ensures DecodedPath(Some(Pointer(keys)))[i] == keys[i] {
      UnescapeEscape(keys[i]);
    }
  }

  /** A key without `~` or `/` is its own segment. */
  lemma {:induction false} EscapePlain(key: string)
    requires forall i | 0 <= i < |key| :: key[i] != '~' && key[i] != Slash
    ensures Escape(key) == key
  {
    if |key| > 0 {
      EscapePlain(key[1..]);
      assert [key[0]] + key[1..] == key;
    }
  }

  /** A document whose `paths` map has one entry, `/users`, starting at
      offset 20, and a validator error about that entry, reported at the
      instance path `/paths/~1users`. */
  const UsersDoc: Document :=
    Document(Some(MapNode([Entry(Some("paths"), MapNode([Entry(Some("/users"), MapNode([], 20))], 7))], 0)), 0)
  const UsersError: ValidatorError := ValidatorError(Some(Join(["", "paths", "~1users"], Slash)), None)

  /** The example error's path splits into `paths` and `~1users`. */
  lemma UsersErrorPath()
    ensures SplitPath(UsersError.instancePath) == ["paths", "~1users"]
  {
    SplitPathRoundTrip(["paths", "~1users"]);
  }

  /** `paths` and `~1users` decode to `paths` and `/users`. */
  lemma UsersSegmentsDecode()
    ensures Unescape("paths") == "paths" && Unescape("~1users") == "/users"
  {
    UnescapePlain("paths");
    UnescapePlain("users");
    UnescapeSlash("users");
    assert "~1users" == "~1" + "users";
    assert "/users" == [Slash] + "users";
  }

  /** A segment without `~` decodes to itself. */
  lemma {:induction false} UnescapePlain(segment: string)
    requires forall i | 0 <= i < |segment| :: segment[i] != '~'
    ensures Unescape(segment) == segment
  {
    if |segment| > 0 {
      UnescapePlain(segment[1..]);
      assert [segment[0]] + segment[1..] == segment;
    }
  }

  /** `~1` decodes to a slash. */
  lemma UnescapeSlash(segment: string)
    ensures Unescape("~1" + segment) == [Slash] + Unescape(segment)
  {
    assert ("~1" + segment)[2..] == segment;
  }

  /** As written, no step of the walk selects a map entry whose key holds a
      slash: the segments are slash-free and keys are matched exactly. */
  lemma SlashKeyNeverSelected(instancePath: Option<string>, entries: seq<Entry>, i: nat)
    requires i < |SplitPath(instancePath)|
    ensures var found := FindEntry(entries, SplitPath(instancePath)[i]);
      found.Some? ==> Slash !in entries[found.value].key.value
  {
  }

  /** Every path under `paths:` in an OpenAPI document starts with a slash,
      so by `SlashKeyNeverSelected` such entries are out of reach. In the
      example, the error about the `/users` entry gets no line. */
  lemma EscapedKeyNotFound(spec: string)
    ensures MapError(spec, UsersDoc, UsersError).line.None?
  {
    UsersErrorPath();
  }

  /** Decoding the segments finds the `/users` entry and reports the line it
      starts on. */
  lemma EscapedKeyFoundWhenDecoded(spec: string)
    ensures CorrectedMapError(spec, UsersDoc, UsersError).line == Some(GetLineFromOffset(spec, 20))
  {
    UsersDecodedPath();
    UsersEntryOffset();
  }

  /** The example error's segments, decoded. */
  lemma UsersDecodedPath()
    ensures DecodedPath(UsersError.instancePath) == ["paths", "/users"]
  {
    UsersErrorPath();
    UsersSegmentsDecode();
  }

  /** Following `paths` and then `/users` reaches the entry at offset 20. */
  lemma UsersEntryOffset()
    ensures ErrorOffset(UsersDoc, ["paths", "/users"]) == Some(20)
  {
  }
}
