/** The splitting of a text into YAML documents (pkg/k8s/yaml.go) and the joining of
    manifests into one text (Template in pkg/helm/helmcli.go). */
module YamlDocs {
  import opened Text

  /** What the YAML parser makes of a document; an empty object is not kept. */
  datatype Parsed<+T> = Unreadable | Empty | Object(content: T)

  type Parser<!T> = string -> Parsed<T>

  // ---------- lines

  /** White space as strings.TrimSpace sees it. */
  predicate IsSpace(c: char) {
    || c == ' ' || '\t' <= c <= '\r' || c == '\U{85}' || c == '\U{A0}' || c == '\U{1680}'
    || '\U{2000}' <= c <= '\U{200A}' || c == '\U{2028}' || c == '\U{2029}'
    || c == '\U{202F}' || c == '\U{205F}' || c == '\U{3000}'
  }

  predicate Blank(line: string) { forall i | 0 <= i < |line| :: IsSpace(line[i]) }
  predicate Comment(line: string) { "#" <= line }
  predicate Separator(line: string) { "---" <= line }

  /** The lines of a text, each with its newline but for the last. */
  function Lines(text: string): (lines: seq<string>)
    ensures |lines| >= 1
    decreases |text|
  {
    var i := IndexOf(text, '\n');
    if i == |text| then [text] else [text[..i + 1]] + Lines(text[i + 1..])
  }

  // ---------- the declarative split

  function Kept(line: string): string { if Comment(line) || Blank(line) then "" else line }

  /** The documents of a text with one more line in front. */
  function InFront(line: string, docs: seq<string>): (r: seq<string>)
    requires |docs| >= 1
    ensures |r| >= 1
  {
    if Separator(line) then [""] + docs else [Kept(line) + docs[0]] + docs[1..]
  }

  /** The text between the separators, without comments and blank lines. */
  function Documents(lines: seq<string>): (docs: seq<string>)
    ensures |docs| >= 1
  {
    if lines == [] then [""] else InFront(lines[0], Documents(lines[1..]))
  }

  /** Objects in order, and whether all documents could be read. */
  datatype Outcome<+T> = Outcome(objs: seq<T>, ok: bool) {
    /** Reading stops at the first failure. */
    function Then(next: Outcome<T>): Outcome<T> {
      if ok then Outcome(objs + next.objs, next.ok) else this
    }
  }

  function ParseDoc<T>(doc: string, parse: Parser<T>): Outcome<T> {
    if doc == "" then Outcome([], true)
    else
      match parse(doc)
      case Unreadable => Outcome([], false)
      case Empty => Outcome([], true)
      case Object(o) => Outcome([o], true)
  }

  function ParseAll<T>(docs: seq<string>, parse: Parser<T>): Outcome<T> {
    if docs == [] then Outcome([], true) else ParseDoc(docs[0], parse).Then(ParseAll(docs[1..], parse))
  }

  /** What a text holds that is read to its end. */
  function Objects<T>(text: string, parse: Parser<T>): Outcome<T> { ParseAll(Documents(Lines(text)), parse) }

  /** All of a list, or all but its last element. */
  function Whole(s: seq<string>, broken: bool): seq<string>
    requires |s| >= 1
  {
    if broken then s[..|s| - 1] else s
  }

  /** What is parsed: if the reader breaks off, the last line does not count, and
      neither does what follows the last separator before it. */
  function Complete(lines: seq<string>, broken: bool): seq<string> { Whole(Documents(lines), broken) }

  /** The outcome of reading a text that is followed by its end, or by an error. */
  function Read<T>(text: string, broken: bool, parse: Parser<T>): Outcome<T> {
    var o := ParseAll(Complete(Whole(Lines(text), broken), broken), parse);
    if broken then Outcome(o.objs, false) else o
  }

  // ---------- the streaming loop

  /** The text that is buffered goes before the first document. */
  ghost function After(buffer: string, docs: seq<string>): seq<string>
    requires |docs| >= 1
  {
    [buffer + docs[0]] + docs[1..]
  }

  method FlushBuffer<T>(objs: seq<T>, buffer: string, parse: Parser<T>) returns (r: seq<T>, ok: bool)
    ensures Outcome(r, ok) == Outcome(objs, true).Then(ParseDoc(buffer, parse))
  {
    if |buffer| < 1 {
      return objs, true;
    }
    match parse(buffer)
    case Unreadable => return objs, false;
    case Empty => return objs, true;
    case Object(o) => return objs + [o], true;
  }

  /** Reads line by line, and parses what it has buffered at each separator and at
      the end of the text.  `broken` tells that an error comes in place of the end. */
  method Unmarshall<T>(text: string, broken: bool, parse: Parser<T>) returns (objs: seq<T>, ok: bool)
    ensures Outcome(objs, ok) == Read(text, broken, parse)
  {
    hide Lines, ParseDoc, ParseAll, Documents, After, Separator, Comment, Blank, Whole;
    ghost var all := ParseAll(Complete(Whole(Lines(text), broken), broken), parse);
    objs := [];
    var buffer, rest := "", text;
    AfterNothing(Documents(Whole(Lines(rest), broken)));
    ThenAssociative(all, Outcome([], true), Outcome([], true));
    while true
      invariant Outcome(objs, true).Then(ToCome(buffer, Whole(Lines(rest), broken), broken, parse)) == all
      decreases |rest|
    {
      var i := IndexOf(rest, '\n');
      var eofReached := i == |rest|;
      NextOf(rest, broken);
      if eofReached && broken {
        NothingToCome(objs, buffer, parse);
        return objs, false;
      }
      var line := if eofReached then rest else rest[..i + 1];
      LineStep(objs, buffer, line, if eofReached then [] else Whole(Lines(rest[i + 1..]), broken), broken, parse);
      if Separator(line) {
        objs, ok := FlushBuffer(objs, buffer, parse);
        if !ok {
          return;
        }
        buffer := "";
      } else if !Comment(line) && !Blank(line) {
        buffer := buffer + line;
      } else {
        assert buffer + "" == buffer;
      }
      if eofReached {
        NothingToCome(objs, buffer, parse);
        objs, ok := FlushBuffer(objs, buffer, parse);
        return;
      }
      rest := rest[i + 1..];
    }
  }

  /** The outcome of what is buffered and the lines still to come. */
  ghost function ToCome<T>(buffer: string, lines: seq<string>, broken: bool, parse: Parser<T>): Outcome<T> {
    ParseAll(Whole(After(buffer, Documents(lines)), broken), parse)
  }

  lemma AfterNothing(docs: seq<string>)
    requires |docs| >= 1
    ensures After("", docs) == docs
  {
    assert "" + docs[0] == docs[0];
  }

  lemma ThenAssociative<T>(a: Outcome<T>, b: Outcome<T>, c: Outcome<T>)
    ensures a.Then(b).Then(c) == a.Then(b.Then(c))
    ensures a.Then(Outcome([], true)) == a == Outcome([], true).Then(a) && (!a.ok ==> a.Then(b) == a)
  {
  }

  lemma ParseCons<T>(doc: string, docs: seq<string>, parse: Parser<T>)
    ensures ParseAll([doc] + docs, parse) == ParseDoc(doc, parse).Then(ParseAll(docs, parse))
    ensures ParseAll([doc], parse) == ParseDoc(doc, parse) && ParseDoc("", parse) == Outcome([], true)
  {
    assert ([doc] + docs)[1..] == docs;
    ThenAssociative(ParseDoc(doc, parse), Outcome([], true), Outcome([], true));
  }

  /** What a line does to the documents that are still to come. */
  lemma LineDocs(buffer: string, line: string, more: seq<string>)
    ensures After(buffer, Documents([line] + more)) ==
      if Separator(line) then [buffer] + Documents(more) else After(buffer + Kept(line), Documents(more))
  {
    hide Separator, Kept;
    var docs := Documents(more);
    assert ([line] + more)[1..] == more;
    if Separator(line) {
      assert ([""] + docs)[1..] == docs && buffer + "" == buffer;
    } else {
      var head := Kept(line) + docs[0];
      assert ([head] + docs[1..])[1..] == docs[1..];
      assert buffer + head == buffer + Kept(line) + docs[0];
    }
  }

  /** One turn of the loop: `more` is empty at the end of the text. */
  lemma LineStep<T>(objs: seq<T>, buffer: string, line: string, more: seq<string>, broken: bool, parse: Parser<T>)
    ensures
      Outcome(objs, true).Then(ToCome(buffer, [line] + more, broken, parse)) ==
      if Separator(line) then Outcome(objs, true).Then(ParseDoc(buffer, parse)).Then(ToCome("", more, broken, parse))
      else Outcome(objs, true).Then(ToCome(buffer + Kept(line), more, broken, parse))
  {
    hide Lines, ParseDoc, ParseAll, Documents, Separator, Kept, After;
    LineDocs(buffer, line, more);
    var docs := Documents(more);
    AfterNothing(docs);
    if Separator(line) {
      assert Whole([buffer] + docs, broken) == [buffer] + Whole(docs, broken);
      ParseCons(buffer, Whole(docs, broken), parse);
      ThenAssociative(Outcome(objs, true), ParseDoc(buffer, parse), ParseAll(Whole(docs, broken), parse));
    }
  }

  lemma NothingToCome<T>(objs: seq<T>, buffer: string, parse: Parser<T>)
    ensures Outcome(objs, true).Then(ToCome(buffer, [], true, parse)) == Outcome(objs, true)
    ensures Outcome(objs, true).Then(ToCome(buffer, [], false, parse)) == Outcome(objs, true).Then(ParseDoc(buffer, parse))
  {
    hide ParseDoc;
    ParseCons(buffer, [], parse);
    assert After(buffer, [""]) == [buffer + ""] + [""][1..] == [buffer] by {
      assert buffer + "" == buffer && [""][1..] == [];
    }
    ThenAssociative(Outcome(objs, true), Outcome([], true), Outcome([], true));
  }

  lemma NextLine(rest: string)
    ensures var i := IndexOf(rest, '\n');
      Lines(rest) == [if i == |rest| then rest else rest[..i + 1]] + if i == |rest| then [] else Lines(rest[i + 1..])
  {
    hide IndexOf, Free;
    if IndexOf(rest, '\n') == |rest| {
      assert Lines(rest) == [rest] == [rest] + [];
    }
  }

  lemma NextOf(rest: string, broken: bool)
    ensures var i := IndexOf(rest, '\n');
      Whole(Lines(rest), broken) ==
      if i < |rest| then [rest[..i + 1]] + Whole(Lines(rest[i + 1..]), broken)
      else if broken then [] else [rest] + []
  {
    hide IndexOf, Free, Lines;
    NextLine(rest);
    var i := IndexOf(rest, '\n');
    if i < |rest| {
      var line, more := [rest[..i + 1]], Lines(rest[i + 1..]);
      assert (line + more)[..|more|] == line + more[..|more| - 1];
    }
  }

  // ---------- what arrives

  /** A line of a document: a visible character, and neither # nor --- in front. */
  ghost predicate PlainLine(line: string) {
    && (exists i | 0 <= i < |line| :: '!' <= line[i] <= '~') && Free(line, '\n')
    && line[0] != '#' && !(|line| >= 3 && line[0] == '-' && line[1] == '-' && line[2] == '-')
  }

  /** Lines, each ended by a newline. */
  function LinesText(lines: seq<string>): string {
    if lines == [] then "" else lines[0] + "\n" + LinesText(lines[1..])
  }

  lemma PlainIsKept(line: string)
    requires PlainLine(line)
    ensures !Separator(line + "\n") && Kept(line + "\n") == line + "\n"
  {
    var i :| 0 <= i < |line| && '!' <= line[i] <= '~';
    var t := line + "\n";
    assert t[i] == line[i] && !IsSpace(line[i]);
    assert t[0] == line[0] && "#"[0] == '#';
    assert |line| >= 2 ==> t[1] == line[1];
    assert |line| >= 3 ==> t[2] == line[2];
    assert t[|line|] == '\n';
    assert "---"[0] == "---"[1] == "---"[2] == '-';
    assert !("---" <= t);
  }

  lemma {:induction false} PlainDocuments(lines: seq<string>)
    requires forall i | 0 <= i < |lines| :: PlainLine(lines[i])
    ensures Documents(Lines(LinesText(lines))) == [LinesText(lines)]
  {
    hide PlainLine, Lines, Kept, Separator;
    if lines == [] {
      EmptyLines();
      BlankIsSkipped();
      assert [""][1..] == [];
      assert Documents([]) == [""];
      assert Kept("") + "" == "";
    } else {
      var line, rest := lines[0], LinesText(lines[1..]);
      PlainDocuments(lines[1..]);
      PlainIsKept(line);
      PlainIsFree(line);
      LinesFirst(line, rest);
      assert ([line + "\n"] + Lines(rest))[1..] == Lines(rest);
    }
  }

  lemma PlainIsFree(line: string)
    requires PlainLine(line)
    ensures Free(line, '\n')
  {
  }

  lemma BlankIsSkipped()
    ensures Kept("") == "" && !Separator("")
  {
  }

  /** A text of such lines is one document: what the parser makes of it is what is
      returned. */
  lemma DocumentArrives<T>(lines: seq<string>, parse: Parser<T>)
    requires lines != [] && forall i | 0 <= i < |lines| :: PlainLine(lines[i])
    ensures parse(LinesText(lines)).Object? ==> Objects(LinesText(lines), parse) == Outcome([parse(LinesText(lines)).content], true)
    ensures parse(LinesText(lines)).Empty? ==> Objects(LinesText(lines), parse) == Outcome([], true)
    ensures parse(LinesText(lines)).Unreadable? ==> Objects(LinesText(lines), parse) == Outcome([], false)
  {
    hide PlainLine, Lines, Documents, ParseAll;
    PlainDocuments(lines);
    var text := LinesText(lines);
    assert text != "";
    hide LinesText;
    ParseCons(text, [], parse);
  }

  /** Comments and empty lines make no difference, wherever they stand. */
  lemma SkippedLine<T>(a: string, line: string, b: string, parse: Parser<T>)
    requires Free(line, '\n')
    requires line == "" || line[0] == '#' || forall i | 0 <= i < |line| :: line[i] == ' ' || line[i] == '\t' || line[i] == '\r'
    ensures Objects(a + "\n" + line + "\n" + b, parse) == Objects(a + "\n" + b, parse)
    ensures Objects(line + "\n" + b, parse) == Objects(b, parse)
  {
    hide Lines, Documents, ParseAll;
    var t := line + "\n";
    assert !Separator(t) && Kept(t) == "" by {
      assert |t| >= 1 && (line != "" ==> t[0] == line[0]);
      if line != "" && line[0] == '#' {
        assert t[..1] == "#";
      } else {
        assert forall i | 0 <= i < |t| :: IsSpace(t[i]);
      }
    }
    var front := Lines(a + "\n")[..|Lines(a + "\n")| - 1];
    assert a + "\n" + line + "\n" + b == a + "\n" + (line + "\n" + b);
    LinesOfJoined(a, line + "\n" + b);
    LinesOfJoined(a, b);
    LinesFirst(line, b);
    assert front + ([t] + Lines(b)) == front + [t] + Lines(b);
    SkipLine(front, t, Lines(b));
    SkipLine([], t, Lines(b));
    assert [] + [t] + Lines(b) == [t] + Lines(b) && [] + Lines(b) == Lines(b);
  }

  lemma {:induction false} SkipLine(front: seq<string>, line: string, rest: seq<string>)
    requires !Separator(line) && Kept(line) == ""
    ensures Documents(front + [line] + rest) == Documents(front + rest)
  {
    hide Separator, Kept;
    if front == [] {
      assert [] + [line] + rest == [line] + rest && ([line] + rest)[1..] == rest && [] + rest == rest;
      var docs := Documents(rest);
      assert "" + docs[0] == docs[0];
      assert [Kept(line) + docs[0]] + docs[1..] == docs;
    } else {
      assert (front + [line] + rest)[1..] == front[1..] + [line] + rest && (front + rest)[1..] == front[1..] + rest;
      SkipLine(front[1..], line, rest);
    }
  }

  // ---------- joining manifests

  const SEPARATOR := "\n---\n"

  /** The text that Template is to return. */
  function Manifest(parts: seq<string>): string
    requires |parts| >= 1
  {
    if |parts| == 1 then parts[0] else parts[0] + SEPARATOR + Manifest(parts[1..])
  }

  method Template(manifest: string, hooks: seq<string>) returns (out: string)
    ensures out == Manifest([manifest] + hooks)
  {
    out := manifest;
    for i := 0 to |hooks|
      invariant out == Manifest([manifest] + hooks[..i])
    {
      ManifestSnoc([manifest] + hooks[..i], hooks[i]);
      assert [manifest] + hooks[..i + 1] == [manifest] + hooks[..i] + [hooks[i]];
      out := out + "\n---\n" + hooks[i];
    }
    assert hooks[..|hooks|] == hooks;
  }

  lemma {:induction false} ManifestSnoc(parts: seq<string>, part: string)
    requires |parts| >= 1
    ensures Manifest(parts + [part]) == Manifest(parts) + SEPARATOR + part
  {
    if |parts| == 1 {
      assert (parts + [part])[1..] == [part];
    } else {
      assert (parts + [part])[1..] == parts[1..] + [part];
      ManifestSnoc(parts[1..], part);
      assert parts[0] + SEPARATOR + (Manifest(parts[1..]) + SEPARATOR + part) ==
             parts[0] + SEPARATOR + Manifest(parts[1..]) + SEPARATOR + part;
    }
  }

  lemma LinesFirst(first: string, rest: string)
    requires Free(first, '\n')
    ensures Lines(first + "\n" + rest) == [first + "\n"] + Lines(rest)
  {
    var s, i := first + "\n" + rest, |first|;
    assert s[..i] == first && s[..i + 1] == first + "\n" && s[i + 1..] == rest;
    FirstIndex(s, i, '\n');
  }

  lemma {:induction false} LinesOfJoined(a: string, b: string)
    ensures Lines(a + "\n" + b) == Lines(a + "\n")[..|Lines(a + "\n")| - 1] + Lines(b)
    ensures Lines(a + "\n")[|Lines(a + "\n")| - 1] == ""
    decreases |a|
  {
    hide Free, IndexOf, Lines;
    var i := IndexOf(a, '\n');
    assert a[..|a|] == a && a + "\n" + "" == a + "\n";
    if i == |a| {
      LinesFirst(a, b);
      LinesFirst(a, "");
      EmptyLines();
    } else {
      var first, rest := a[..i], a[i + 1..];
      assert a == first + "\n" + rest;
      assert a + "\n" + b == first + "\n" + (rest + "\n" + b) && a + "\n" == first + "\n" + (rest + "\n");
      LinesFirst(first, rest + "\n" + b);
      LinesFirst(first, rest + "\n");
      LinesOfJoined(rest, b);
      AppendFront(first + "\n", Lines(rest + "\n"), Lines(b));
    }
  }

  lemma EmptyLines()
    ensures Lines("") == [""]
  {
  }

  lemma AppendFront(x: string, s: seq<string>, t: seq<string>)
    requires |s| >= 1
    ensures ([x] + s)[..|s|] + t == [x] + (s[..|s| - 1] + t)
  {
  }

  lemma DocumentsCons(lines: seq<string>)
    requires lines != []
    ensures Documents(lines) == InFront(lines[0], Documents(lines[1..]))
  {
  }

  lemma InFrontAppend(line: string, a: seq<string>, b: seq<string>)
    requires |a| >= 1
    ensures InFront(line, a + b) == InFront(line, a) + b
  {
    hide Separator, Kept;
  }

  lemma {:induction false} DocumentsAppend(a: seq<string>, sep: string, b: seq<string>)
    requires Separator(sep)
    ensures Documents(a + [sep] + b) == Documents(a) + Documents(b)
  {
    hide Separator, InFront, Documents;
    DocumentsCons(a + [sep] + b);
    if a == [] {
      assert [] + [sep] + b == [sep] + b && ([sep] + b)[1..] == b;
      assert InFront(sep, Documents(b)) == [""] + Documents(b) by { SeparatorInFront(sep, Documents(b)); }
      NoLines();
    } else {
      assert (a + [sep] + b)[1..] == a[1..] + [sep] + b && (a + [sep] + b)[0] == a[0];
      DocumentsAppend(a[1..], sep, b);
      DocumentsCons(a);
      InFrontAppend(a[0], Documents(a[1..]), Documents(b));
    }
  }

  lemma SeparatorInFront(sep: string, docs: seq<string>)
    requires Separator(sep) && |docs| >= 1
    ensures InFront(sep, docs) == [""] + docs
  {
  }

  lemma NoLines()
    ensures Documents([]) == [""]
  {
  }

  lemma {:induction false} ParseAppend<T>(a: seq<string>, b: seq<string>, parse: Parser<T>)
    ensures ParseAll(a + b, parse) == ParseAll(a, parse).Then(ParseAll(b, parse))
  {
    hide ParseDoc;
    if a == [] {
      assert a + b == b;
    } else {
      assert (a + b)[1..] == a[1..] + b;
      ParseAppend(a[1..], b, parse);
      ThenAssociative(ParseDoc(a[0], parse), ParseAll(a[1..], parse), ParseAll(b, parse));
    }
  }

  /** A reader that breaks off yields a beginning of the objects of the text. */
  lemma BrokenIsBeginning<T>(text: string, parse: Parser<T>)
    ensures Read(text, true, parse).objs <= Objects(text, parse).objs
  {
    hide Lines, Documents, ParseAll;
    var lines := Lines(text);
    var front := lines[..|lines| - 1];
    assert lines == front + [lines[|lines| - 1]];
    var more := MoreDocuments(front, lines[|lines| - 1]);
    ParseAppend(Whole(Documents(front), true), more, parse);
  }

  lemma {:induction false} MoreDocuments(lines: seq<string>, last: string) returns (more: seq<string>)
    ensures Documents(lines + [last]) == Whole(Documents(lines), true) + more
  {
    hide Separator, Kept, InFront, Documents;
    if lines == [] {
      NoLines();
      more := Documents(lines + [last]);
    } else {
      assert (lines + [last])[1..] == lines[1..] + [last] && (lines + [last])[0] == lines[0];
      more := MoreDocuments(lines[1..], last);
      DocumentsCons(lines);
      DocumentsCons(lines + [last]);
      more := WholeInFront(lines[0], Documents(lines[1..]), more);
    }
  }

  lemma WholeInFront(line: string, docs: seq<string>, more: seq<string>) returns (rest: seq<string>)
    requires |docs| >= 1 && |Whole(docs, true) + more| >= 1
    ensures InFront(line, Whole(docs, true) + more) == Whole(InFront(line, docs), true) + rest
  {
    hide Separator, Kept;
    var front := docs[..|docs| - 1];
    rest := more;
    if Separator(line) {
      assert ([""] + docs)[..|docs|] == [""] + front;
    } else if |docs| == 1 {
      rest := InFront(line, Whole(docs, true) + more);
    } else {
      var head := [Kept(line) + docs[0]];
      assert (head + docs[1..])[..|docs| - 1] == head + front[1..];
    }
  }

  /** Two texts joined read as the first, ended by a newline, and then the second. */
  lemma JoinedObjects<T>(a: string, b: string, parse: Parser<T>)
    ensures Objects(a + SEPARATOR + b, parse) == Objects(a + "\n", parse).Then(Objects(b, parse))
  {
    hide Lines, Documents, ParseAll;
    var t := Lines(a + "\n");
    var front := t[..|t| - 1];
    assert a + SEPARATOR + b == a + "\n" + ("---\n" + b);
    LinesOfJoined(a, "---\n" + b);
    SeparatorLine(b);
    assert front + ([SEPARATOR[1..]] + Lines(b)) == front + [SEPARATOR[1..]] + Lines(b);
    DocumentsAppend(front, SEPARATOR[1..], Lines(b));
    LastBlank(t);
    ParseAppend(Documents(front), Documents(Lines(b)), parse);
  }

  lemma SeparatorLine(b: string)
    ensures Lines("---\n" + b) == [SEPARATOR[1..]] + Lines(b)
  {
    assert SEPARATOR[1..] == "---" + "\n" && "---\n" + b == "---" + "\n" + b;
    LinesFirst("---", b);
  }

  lemma {:induction false} LastBlank(lines: seq<string>)
    requires |lines| >= 1 && lines[|lines| - 1] == ""
    ensures Documents(lines) == Documents(lines[..|lines| - 1])
  {
    if |lines| == 1 {
      assert lines[1..] == [] && Kept("") + "" == "";
    } else {
      LastBlank(lines[1..]);
      assert lines[1..][..|lines| - 2] == lines[..|lines| - 1][1..];
    }
  }

  /** The outcome of reading all parts, one after the other. */
  function ReadParts<T>(parts: seq<string>, parse: Parser<T>): Outcome<T> {
    if parts == [] then Outcome([], true) else Objects(parts[0], parse).Then(ReadParts(parts[1..], parse))
  }

  /** The parts, each but the last with a newline at its end. */
  function Terminated(parts: seq<string>): seq<string> {
    if |parts| <= 1 then parts else [parts[0] + "\n"] + Terminated(parts[1..])
  }

  /** The text of Template reads as its parts, for any parser. */
  lemma {:induction false} ManifestObjects<T>(parts: seq<string>, parse: Parser<T>)
    requires |parts| >= 1
    ensures Objects(Manifest(parts), parse) == ReadParts(Terminated(parts), parse)
  {
    hide Objects;
    if |parts| == 1 {
      assert parts[1..] == [];
      ThenAssociative(Objects(parts[0], parse), Outcome([], true), Outcome([], true));
    } else {
      var rest := Terminated(parts[1..]);
      assert ([parts[0] + "\n"] + rest)[1..] == rest;
      JoinedObjects(parts[0], Manifest(parts[1..]), parse);
      ManifestObjects(parts[1..], parse);
    }
  }

  // ---------- parsers that do not mind a newline at the end

  ghost predicate IgnoresNewline<T>(parse: Parser<T>) {
    forall doc: string :: parse(doc + "\n") == parse(doc)
  }

  lemma KeptWithNewline(line: string)
    ensures Separator(line + "\n") <==> Separator(line)
    ensures Kept(line + "\n") == if Kept(line) == "" then "" else Kept(line) + "\n"
  {
    var t := line + "\n";
    assert forall i | 0 <= i < |line| :: t[i] == line[i];
    if Separator(t) {
      assert t[0] == t[1] == t[2] == '-';
    }
  }

  lemma {:induction false} EndNewline<T>(buffer: string, lines: seq<string>, line: string, parse: Parser<T>)
    requires IgnoresNewline(parse)
    ensures ToCome(buffer, lines + [line + "\n"], false, parse) == ToCome(buffer, lines + [line], false, parse)
    decreases |lines|
  {
    hide Separator, Kept, ToCome;
    if lines == [] {
      KeptWithNewline(line);
      LineStep([], buffer, line, [], false, parse);
      LineStep([], buffer, line + "\n", [], false, parse);
      assert [] + [line] == [line] + [] && [] + [line + "\n"] == [line + "\n"] + [];
      NothingToCome([], buffer + Kept(line), parse);
      NothingToCome([], buffer + Kept(line + "\n"), parse);
      assert buffer + (Kept(line) + "\n") == buffer + Kept(line) + "\n";
    } else {
      var more, less := lines[1..] + [line + "\n"], lines[1..] + [line];
      assert lines + [line + "\n"] == [lines[0]] + more && lines + [line] == [lines[0]] + less;
      LineStep([], buffer, lines[0], more, false, parse);
      LineStep([], buffer, lines[0], less, false, parse);
      EndNewline(if Separator(lines[0]) then "" else buffer + Kept(lines[0]), lines[1..], line, parse);
    }
    SameAlone(ToCome(buffer, lines + [line + "\n"], false, parse), ToCome(buffer, lines + [line], false, parse));
  }

  lemma SameAlone<T>(a: Outcome<T>, b: Outcome<T>)
    requires Outcome([], true).Then(a) == Outcome([], true).Then(b)
    ensures a == b
  {
    ThenAssociative(a, a, a);
    ThenAssociative(b, b, b);
  }

  lemma NewlineIgnored<T>(text: string, parse: Parser<T>)
    requires IgnoresNewline(parse)
    ensures Objects(text + "\n", parse) == Objects(text, parse)
  {
    hide Lines, Documents, ParseAll;
    var lines, front := LastLine(text);
    LastBlank(Lines(text + "\n"));
    EndNewline("", front, lines, parse);
    AfterNothing(Documents(front + [lines + "\n"]));
    AfterNothing(Documents(front + [lines]));
  }

  /** A newline at the end of a text ends its last line and begins an empty one. */
  lemma {:induction false} LastLine(text: string) returns (last: string, front: seq<string>)
    ensures Lines(text) == front + [last] && Lines(text + "\n") == front + [last + "\n"] + [""]
    decreases |text|
  {
    hide Free, IndexOf, Lines;
    var i := IndexOf(text, '\n');
    assert text[..|text|] == text;
    if i == |text| {
      last, front := text, [];
      NextLine(text);
      LinesFirst(text, "");
      assert text + "\n" + "" == text + "\n" && [text] + [] == [] + [text];
      EmptyLines();
    } else {
      var first, rest := text[..i], text[i + 1..];
      assert text == first + "\n" + rest && text + "\n" == first + "\n" + (rest + "\n");
      LinesFirst(first, rest);
      LinesFirst(first, rest + "\n");
      last, front := LastLine(rest);
      front := [first + "\n"] + front;
    }
  }

  function Concat<T>(parts: seq<string>, parse: Parser<T>): seq<T> {
    if parts == [] then [] else Objects(parts[0], parse).objs + Concat(parts[1..], parse)
  }

  /** If the parser does not mind a newline at the end, the text of Template reads as
      its parts; if all of them can be read, its objects are theirs, in order. */
  lemma TemplateObjects<T>(parts: seq<string>, parse: Parser<T>)
    requires |parts| >= 1 && IgnoresNewline(parse)
    ensures Objects(Manifest(parts), parse) == ReadParts(parts, parse)
    ensures Objects(Manifest(parts), parse).ok <==> forall i | 0 <= i < |parts| :: Objects(parts[i], parse).ok
    ensures Objects(Manifest(parts), parse).ok ==> Objects(Manifest(parts), parse).objs == Concat(parts, parse)
  {
    hide Objects;
    ManifestObjects(parts, parse);
    PartsTerminated(parts, parse);
    PartsConcat(parts, parse);
  }

  lemma {:induction false} PartsTerminated<T>(parts: seq<string>, parse: Parser<T>)
    requires IgnoresNewline(parse)
    ensures ReadParts(Terminated(parts), parse) == ReadParts(parts, parse)
  {
    hide Objects;
    if |parts| > 1 {
      var rest := Terminated(parts[1..]);
      assert ([parts[0] + "\n"] + rest)[1..] == rest;
      NewlineIgnored(parts[0], parse);
      PartsTerminated(parts[1..], parse);
    }
  }

  lemma {:induction false} PartsConcat<T>(parts: seq<string>, parse: Parser<T>)
    ensures ReadParts(parts, parse).ok <==> forall i | 0 <= i < |parts| :: Objects(parts[i], parse).ok
    ensures ReadParts(parts, parse).ok ==> ReadParts(parts, parse).objs == Concat(parts, parse)
  {
    hide Objects;
    if parts != [] {
      PartsConcat(parts[1..], parse);
      assert forall i | 0 < i < |parts| :: parts[i] == parts[1..][i - 1];
    }
  }

  /** So manifests of such lines arrive as their objects, one for each, in order. */
  lemma {:induction false} ManifestsArrive<T>(parts: seq<seq<string>>, objs: seq<T>, parse: Parser<T>)
    requires |parts| == |objs| >= 1 && IgnoresNewline(parse)
    requires forall i | 0 <= i < |parts| :: PlainPart(parts[i]) && parse(LinesText(parts[i])) == Object(objs[i])
    ensures Objects(Manifest(Texts(parts)), parse) == Outcome(objs, true)
  {
    hide PlainPart, Objects, LinesText, IgnoresNewline;
    assert PlainPart(parts[0]);
    PartArrives(parts[0], objs[0], parse);
    if |parts| == 1 {
      assert parts[1..] == [] && Texts(parts)[0] == LinesText(parts[0]) && |Texts(parts)| == 1;
      assert objs == [objs[0]];
    } else {
      ManifestsArrive(parts[1..], objs[1..], parse);
      var rest := Texts(parts[1..]);
      assert Texts(parts)[1..] == rest && |Texts(parts)| > 1;
      JoinedObjects(LinesText(parts[0]), Manifest(rest), parse);
      NewlineIgnored(LinesText(parts[0]), parse);
      assert objs == [objs[0]] + objs[1..];
    }
  }

  ghost predicate PlainPart(lines: seq<string>) { lines != [] && forall i | 0 <= i < |lines| :: PlainLine(lines[i]) }

  function Texts(parts: seq<seq<string>>): (r: seq<string>)
    ensures |r| == |parts|
  {
    if parts == [] then [] else [LinesText(parts[0])] + Texts(parts[1..])
  }

  lemma PartArrives<T>(lines: seq<string>, o: T, parse: Parser<T>)
    requires PlainPart(lines) && parse(LinesText(lines)) == Object(o)
    ensures Objects(LinesText(lines), parse) == Outcome([o], true)
  {
    DocumentArrives(lines, parse);
  }
}
