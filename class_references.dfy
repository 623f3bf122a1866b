/** The sample provider ClassReferencesCodeLensProvider: it scans the plain
    text of a document, puts a lens on every line that declares a class (found
    by the text "class "), and resolves a lens by counting the lines that
    mention "new <ClassName>". */
module ClassReferences {
  import opened JavaStrings
  import opened CodeLensApi

  /** One line of an IDocument: its text and the delimiter that ends it (null,
      here None, on the last line). */
  datatype DocumentLine = DocumentLine(text: string, delimiter: Option<string>)

  /** An IDocument, line by line. Its full content is the lines' texts joined
      with their delimiters. */
  datatype Document = Document(lines: seq<DocumentLine>)

  function DelimiterLength(l: DocumentLine): nat
  {
    if l.delimiter.Some? then |l.delimiter.value| else 0
  }

  /** A line as stored in the document, delimiter included. */
  function Stored(l: DocumentLine): string
  {
    l.text + (if l.delimiter.Some? then l.delimiter.value else "")
  }

  /** IDocument.get(): the whole content. */
  function Joined(lines: seq<DocumentLine>): string
  {
    if lines == [] then ""
    else Joined(lines[..|lines| - 1]) + Stored(lines[|lines| - 1])
  }

  /** IDocument.getLineOffset(line). */
  function LineOffset(doc: Document, line: nat): nat
    requires line < |doc.lines|
  {
    |Joined(doc.lines[..line])|
  }

  /** IDocument.getLineLength(line): the length including the delimiter. */
  function LineLength(doc: Document, line: nat): nat
    requires line < |doc.lines|
  {
    |Stored(doc.lines[line])|
  }

  lemma {:induction false} JoinedAppend(a: seq<DocumentLine>, b: seq<DocumentLine>)
    ensures Joined(a + b) == Joined(a) + Joined(b)
  {
    if b != [] {
      var n := |b| - 1;
      assert (a + b)[..|a + b| - 1] == a + b[..n];
      JoinedAppend(a, b[..n]);
    } else {
      assert a + b == a;
    }
  }

  /** A line's stored text sits in the content at its offset. */
  lemma StoredAtOffset(doc: Document, line: nat)
    requires line < |doc.lines|
    ensures LineOffset(doc, line) + LineLength(doc, line) <= |Joined(doc.lines)|
    ensures Joined(doc.lines)[LineOffset(doc, line)..LineOffset(doc, line) + LineLength(doc, line)]
            == Stored(doc.lines[line])
  {
    var lines := doc.lines;
    assert lines == lines[..line + 1] + lines[line + 1..];
    JoinedAppend(lines[..line + 1], lines[line + 1..]);
    assert lines[..line + 1][..line] == lines[..line];
  }

  /** getLineText(document, line, withLineDelimiter): reads `LineLength`
      characters at `LineOffset`, first shortening the length by the
      delimiter's when the delimiter is not wanted. The result is the line's
      own text, with its delimiter exactly when one was asked for; a line the
      document does not have makes the document throw, and the exception is
      swallowed into null (None). */
  function GetLineText(doc: Document, line: nat, withLineDelimiter: bool): (r: Option<string>)
    ensures r.None? <==> line >= |doc.lines|
    ensures r.Some? ==> r.value == if withLineDelimiter then Stored(doc.lines[line]) else doc.lines[line].text
    ensures r.Some? && !withLineDelimiter ==> |r.value| == LineLength(doc, line) - DelimiterLength(doc.lines[line])
  {
    if line >= |doc.lines| then None
    else
      StoredAtOffset(doc, line);
      var lo := LineOffset(doc, line);
      var ll := LineLength(doc, line);
      var length := if withLineDelimiter then ll else ll - DelimiterLength(doc.lines[line]);
      assert Joined(doc.lines)[lo..lo + length] == Stored(doc.lines[line])[..length];
      Some(Joined(doc.lines)[lo..lo + length])
  }

  /** The lines' texts without delimiters. */
  function Texts(doc: Document): (texts: seq<string>)
    ensures |texts| == |doc.lines|
    ensures forall i :: 0 <= i < |texts| ==> texts[i] == doc.lines[i].text
  {
    seq(|doc.lines|, i requires 0 <= i < |doc.lines| => doc.lines[i].text)
  }

  const ClassKeyword: string := "class "

  /** What provideCodeLenses takes as the class name of a line: None when the
      line has no "class ", otherwise the text after the first "class ", cut
      at the next space. The name may be empty. */
  function ClassNameOf(line: string): (name: Option<string>)
    ensures name.None? <==> !Contains(line, ClassKeyword)
    ensures name.Some? ==> |ClassKeyword| + |name.value| <= |line|
  {
    var index := IndexOf(line, ClassKeyword);
    if index == -1 then None
    else
      var rest := line[index + |ClassKeyword|..];
      var space := IndexOf(rest, " ");
      Some(if space == -1 then rest else rest[..space])
  }

  /** The extracted name is the word right after the first "class ": it has
      no space, and it ends at a space or at the end of the line. */
  lemma ClassNameIsWordAfterKeyword(line: string)
    ensures ClassNameOf(line).None? <==> !Contains(line, ClassKeyword)
    ensures ClassNameOf(line).Some? ==>
      var name := ClassNameOf(line).value;
      exists k: nat ::
        FirstOccurrence(line, ClassKeyword, k) &&
        var start := k + |ClassKeyword|;
        start + |name| <= |line| && line[start..start + |name|] == name &&
        (start + |name| == |line| || line[start + |name|] == ' ')
    ensures ClassNameOf(line).Some? ==> ' ' !in ClassNameOf(line).value
  {
    var index := IndexOf(line, ClassKeyword);
    if index != -1 {
      var start := index + |ClassKeyword|;
      var rest := line[start..];
      var space := IndexOf(rest, " ");
      var name := ClassNameOf(line).value;
      if space == -1 {
        assert name == rest;
        forall c | c in name ensures c != ' ' {
          var j :| 0 <= j < |rest| && rest[j] == c;
          assert !OccursAt(rest, " ", j);
          assert rest[j..j + 1] == [rest[j]];
        }
      } else {
        assert name == rest[..space];
        assert OccursAt(rest, " ", space);
        assert rest[space..space + 1] == " ";
        forall c | c in name ensures c != ' ' {
          var j :| 0 <= j < space && name[j] == c;
          assert !OccursAt(rest, " ", j);
          assert rest[j..j + 1] == [rest[j]];
        }
      }
      assert FirstOccurrence(line, ClassKeyword, index);
    }
  }

  /** Where provideCodeLenses puts a lens: the class name and the 1-based
      line number. */
  datatype Site = Site(className: string, line: nat)

  /** The lenses the provider produces for these lines, in line order: one per
      line whose extracted class name is not empty. */
  function Sites(lines: seq<string>): seq<Site>
  {
    if lines == [] then []
    else
      var i := |lines| - 1;
      var name := ClassNameOf(lines[i]);
      Sites(lines[..i]) + (if name.Some? && |name.value| > 0 then [Site(name.value, i + 1)] else [])
  }

  /** A line on which provideCodeLenses puts a lens. */
  predicate DeclaresClass(line: string)
  {
    ClassNameOf(line).Some? && |ClassNameOf(line).value| > 0
  }

  /** There is one lens per declaring line, so never more lenses than lines. */
  lemma {:induction false} SitesCount(lines: seq<string>)
    ensures |Sites(lines)| == CountWhere(lines, DeclaresClass)
    ensures |Sites(lines)| <= |lines|
  {
    if lines != [] {
      SitesCount(lines[..|lines| - 1]);
    }
  }

  /** Sites grow line by line. */
  lemma SitesStep(lines: seq<string>, i: nat)
    requires i < |lines|
    ensures Sites(lines[..i + 1]) == Sites(lines[..i]) +
      (if ClassNameOf(lines[i]).Some? && |ClassNameOf(lines[i]).value| > 0
       then [Site(ClassNameOf(lines[i]).value, i + 1)] else [])
  {
    assert lines[..i + 1][..i] == lines[..i];
  }

  /** Every site names a line of the document, in 1..|lines|, whose class name
      it carries, and that name is a non-empty word without spaces. */
  lemma {:induction false} SitesAreDeclarations(lines: seq<string>, s: Site)
    requires s in Sites(lines)
    ensures 1 <= s.line <= |lines|
    ensures ClassNameOf(lines[s.line - 1]) == Some(s.className)
    ensures |s.className| > 0 && ' ' !in s.className
  {
    var i := |lines| - 1;
    var name := ClassNameOf(lines[i]);
    if s in Sites(lines[..i]) {
      SitesAreDeclarations(lines[..i], s);
    } else {
      ClassNameIsWordAfterKeyword(lines[i]);
    }
  }

  /** Conversely, every line with a non-empty class name has its site. */
  lemma {:induction false} DeclarationsHaveSites(lines: seq<string>, i: nat)
    requires i < |lines|
    requires ClassNameOf(lines[i]).Some? && |ClassNameOf(lines[i]).value| > 0
    ensures Site(ClassNameOf(lines[i]).value, i + 1) in Sites(lines)
  {
    var n := |lines| - 1;
    if i < n {
      assert lines[..n][i] == lines[i];
      DeclarationsHaveSites(lines[..n], i);
    }
  }

  /** Sites come out in strictly increasing line order, so no line has two. */
  lemma {:induction false} SitesAscending(lines: seq<string>)
    ensures forall a, b :: 0 <= a < b < |Sites(lines)| ==> Sites(lines)[a].line < Sites(lines)[b].line
  {
    if lines != [] {
      var n := |lines| - 1;
      var front := Sites(lines[..n]);
      SitesAscending(lines[..n]);
      forall s | s in front ensures s.line <= n {
        SitesAreDeclarations(lines[..n], s);
      }
      assert forall a :: 0 <= a < |front| ==> front[a] in front;
    }
  }

  /** ClassCodeLens: a lens on a line, remembering the class name; the command
      is set when the lens is resolved. */
  class ClassCodeLens {
    const className: string
    const line: nat
    var command: Option<Command>

    constructor (className: string, startLineNumber: nat)
      ensures this.className == className && line == startLineNumber
      ensures command == None
    {
      this.className := className;
      this.line := startLineNumber;
      command := None;
    }

    method SetCommand(c: Command)
      modifies this
      ensures command == Some(c)
    {
      command := Some(c);
    }
  }

  /** Where a sequence of lenses sits. */
  function SitesOf(lenses: seq<ClassCodeLens>): seq<Site>
  {
    if lenses == [] then []
    else SitesOf(lenses[..|lenses| - 1]) + [Site(lenses[|lenses| - 1].className, lenses[|lenses| - 1].line)]
  }

  lemma SitesOfAppend(lenses: seq<ClassCodeLens>, lens: ClassCodeLens)
    ensures SitesOf(lenses + [lens]) == SitesOf(lenses) + [Site(lens.className, lens.line)]
  {
    assert (lenses + [lens])[..|lenses|] == lenses;
  }

  predicate Unresolved(lenses: seq<ClassCodeLens>)
    reads set l | l in lenses
  {
    forall l | l in lenses :: l.command == None
  }

  /** The extraction step of provideCodeLenses for one line: the text after
      the first "class ", cut at its first space. */
  method ExtractClassName(line: string) returns (found: bool, className: string)
    ensures found <==> ClassNameOf(line).Some?
    ensures found ==> className == ClassNameOf(line).value
  {
    var index := IndexOf(line, ClassKeyword);
    found := index != -1;
    className := "";
    if found {
      className := line[index + |ClassKeyword|..|line|];
      ghost var rest := className;
      assert rest == line[index + |ClassKeyword|..];
      index := IndexOf(className, " ");
      if index != -1 {
        className := className[..index];
      }
      assert className == if IndexOf(rest, " ") == -1 then rest else rest[..IndexOf(rest, " ")];
    }
  }

  /** provideCodeLenses: one new, unresolved lens per line that declares a
      class, in line order. */
  method ProvideCodeLenses(doc: Document) returns (lenses: seq<ClassCodeLens>)
    ensures SitesOf(lenses) == Sites(Texts(doc))
    ensures forall l | l in lenses :: fresh(l)
    ensures Unresolved(lenses)
  {
    lenses := [];
    var lineCount := |doc.lines|;
    for i := 0 to lineCount
      invariant SitesOf(lenses) == Sites(Texts(doc)[..i])
      invariant forall l | l in lenses :: fresh(l)
      invariant Unresolved(lenses)
    {
      var line := GetLineText(doc, i, false).value;
      var found, className := ExtractClassName(line);
      if found && |className| > 0 {
        var lens := new ClassCodeLens(className, i + 1);
        LineWithSite(Texts(doc), i, lenses, lens);
        lenses := lenses + [lens];
      } else {
        LineWithoutSite(Texts(doc), i, lenses);
      }
    }
    assert Texts(doc)[..lineCount] == Texts(doc);
  }

  /** A line that declares a class adds its lens's site. */
  lemma LineWithSite(lines: seq<string>, i: nat, lenses: seq<ClassCodeLens>, lens: ClassCodeLens)
    requires i < |lines| && SitesOf(lenses) == Sites(lines[..i])
    requires ClassNameOf(lines[i]) == Some(lens.className) && |lens.className| > 0 && lens.line == i + 1
    ensures SitesOf(lenses + [lens]) == Sites(lines[..i + 1])
  {
    SitesStep(lines, i);
    SitesOfAppend(lenses, lens);
  }

  /** Any other line adds none. */
  lemma LineWithoutSite(lines: seq<string>, i: nat, lenses: seq<ClassCodeLens>)
    requires i < |lines| && SitesOf(lenses) == Sites(lines[..i])
    requires !(ClassNameOf(lines[i]).Some? && |ClassNameOf(lines[i]).value| > 0)
    ensures SitesOf(lenses) == Sites(lines[..i + 1])
  {
    SitesStep(lines, i);
  }

  /** The test the resolver applies to each line. */
  function MentionsNew(className: string): string -> bool
  {
    line => Contains(line, "new " + className)
  }

  /** A line passes the resolver's test exactly when "new <ClassName>"
      occurs somewhere in it. */
  lemma MentionsNewExactly(className: string, line: string)
    ensures MentionsNew(className)(line) <==> exists j :: OccursAt(line, "new " + className, j)
  {
    ContainsExactly(line, "new " + className);
  }

  /** resolveCodeLens: counts the lines that contain "new <ClassName>" (a
      line counts once however often it does) and sets the lens's command to
      "<count> references". The lens itself is returned. */
  method ResolveCodeLens(doc: Document, codeLens: ClassCodeLens) returns (r: ClassCodeLens)
    modifies codeLens
    ensures r == codeLens
    ensures codeLens.command == Some(ReferencesCommand(CountWhere(Texts(doc), MentionsNew(codeLens.className))))
  {
    var className := codeLens.className;
    var refCount := 0;
    var lineCount := |doc.lines|;
    for i := 0 to lineCount
      invariant refCount == CountWhere(Texts(doc)[..i], MentionsNew(className))
    {
      assert Texts(doc)[..i + 1][..i] == Texts(doc)[..i];
      var line := GetLineText(doc, i, false).value;
      refCount := refCount + if Contains(line, "new " + className) then 1 else 0;
    }
    assert Texts(doc)[..lineCount] == Texts(doc);
    codeLens.SetCommand(Command(DecimalString(refCount) + " references", ""));
    r := codeLens;
  }

  /** The resolved count is the number of lines mentioning "new <ClassName>",
      so never more than the document has lines. */
  lemma ResolvedCountIsMentioningLines(doc: Document, className: string)
    ensures CountWhere(Texts(doc), MentionsNew(className))
            == |set i: nat | i < |doc.lines| && Contains(doc.lines[i].text, "new " + className)|
    ensures CountWhere(Texts(doc), MentionsNew(className)) <= |doc.lines|
  {
    var texts := Texts(doc);
    CountWhereIsPositionCount(texts, MentionsNew(className));
    assert PositionsWhere(texts, MentionsNew(className))
        == set i: nat | i < |doc.lines| && Contains(doc.lines[i].text, "new " + className);
  }
}
