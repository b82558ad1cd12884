/** Transport of input values through here-documents: the block that
    `build_command_template` prints (nodes/python_function_executor.py), a shell that
    runs it, and the reading back of the files (nodes/function_call_wrapper.py). */
module HereDoc {
  import opened Sequences
  import opened Template
  import opened TextSplitting

  /** One input: its name, the random delimiter of its here-document, its value. */
  datatype Input = Input(name: string, delim: string, value: string)

  // ----- the script -----

  function TmpPath(name: string): string { "/tmp/" + name }

  /** `cat > /tmp/<name> <<'<delim>'`; the path needs no quoting for these names. */
  function Header(x: Input): string { "cat > " + TmpPath(x.name) + " <<'" + x.delim + "'" }

  function Document(x: Input): string { Header(x) + "\n" + x.value + "\n" + x.delim + "\n" }

  /** The documents joined by newlines, after the values have been filled in. */
  function Script(inputs: seq<Input>): string {
    if inputs == [] then ""
    else if |inputs| == 1 then Document(inputs[0])
    else Document(inputs[0]) + "\n" + Script(inputs[1..])
  }

  // ----- a shell for such scripts (POSIX.1-2017, Shell Command Language, 2.7.4) -----

  /** The lines of a text. */
  function Lines(s: string): (lines: seq<string>)
    ensures lines != []
  {
    Split(s, '\n')
  }

  function Unlines(lines: seq<string>): string {
    if lines == [] then "" else lines[0] + "\n" + Unlines(lines[1..])
  }

  predicate IsPathChar(c: char) { IsNameChar(c) || c == '/' }

  function PathRun(s: string): (n: nat)
    ensures n <= |s|
  {
    if s != "" && IsPathChar(s[0]) then 1 + PathRun(s[1..]) else 0
  }

  function QuotedRun(s: string): (n: nat)
    ensures n <= |s|
  {
    if s != "" && s[0] != '\'' then 1 + QuotedRun(s[1..]) else 0
  }

  datatype Redirect = Redirect(path: string, delim: string)

  /** The rest of the line after `cat > `. */
  function ParseTarget(rest: string): Option<Redirect> {
    var n := PathRun(rest);
    if !(" <<'" <= rest[n..]) then None
    else
      var quoted := rest[n + 4..];
      var m := QuotedRun(quoted);
      if quoted[m..] == "'" then Some(Redirect(rest[..n], quoted[..m])) else None
  }

  /** Recognises `cat > PATH <<'DELIM'`. */
  function ParseHeader(line: string): Option<Redirect> {
    if "cat > " <= line then ParseTarget(line[6..]) else None
  }

  datatype Doc = Doc(body: seq<string>, rest: seq<string>)

  /** The body of a here-document: the lines before the first one that is the delimiter.
      The delimiter was quoted, so nothing in the body is expanded. */
  function ReadDocument(lines: seq<string>, delim: string): (d: Doc)
    ensures |d.rest| <= |lines|
  {
    if lines == [] then Doc([], [])
    else if lines[0] == delim then Doc([], lines[1..])
    else
      var d := ReadDocument(lines[1..], delim);
      Doc([lines[0]] + d.body, d.rest)
  }

  type Files = map<string, string>

  /** Runs the script; lines that are not such commands leave the files alone. */
  function RunLines(lines: seq<string>, files: Files): Files
    decreases |lines|
  {
    if lines == [] then files
    else match ParseHeader(lines[0])
      case None => RunLines(lines[1..], files)
      case Some(r) =>
        var d := ReadDocument(lines[1..], r.delim);
        RunLines(d.rest, files[r.path := Unlines(d.body)])
  }

  function RunScript(script: string): Files { RunLines(Lines(script), map[]) }

  // ----- lines -----

  lemma {:induction false} LinesOfJoin(a: string, b: string)
    ensures Lines(a + "\n" + b) == Lines(a) + Lines(b)
  {
    SplitOfJoin(a, b, '\n');
  }

  lemma {:induction false} UnlinesExtend(c: char, lines: seq<string>)
    requires lines != []
    ensures Unlines(Extend(c, lines)) == [c] + Unlines(lines)
  {
    assert Extend(c, lines)[1..] == lines[1..];
    assert ([c] + lines[0]) + "\n" + Unlines(lines[1..]) == [c] + (lines[0] + "\n" + Unlines(lines[1..]));
  }

  lemma {:induction false} UnlinesOfLines(s: string)
    ensures Unlines(Lines(s)) == s + "\n"
  {
    if s == "" {
      assert Lines(s)[1..] == [];
    } else {
      UnlinesOfLines(s[1..]);
      assert [s[0]] + (s[1..] + "\n") == s + "\n";
      if s[0] == '\n' {
        assert Lines(s)[1..] == Lines(s[1..]);
        assert "" + "\n" + Unlines(Lines(s[1..])) == [s[0]] + Unlines(Lines(s[1..]));
      } else {
        UnlinesExtend(s[0], Lines(s[1..]));
      }
    }
  }

  // ----- one here-document -----

  lemma {:induction false} ReadUpToDelimiter(body: seq<string>, delim: string, rest: seq<string>)
    requires delim !in body
    ensures ReadDocument(body + [delim] + rest, delim) == Doc(body, rest)
  {
    var lines := body + [delim] + rest;
    if body == [] {
      assert lines[1..] == rest;
    } else {
      assert lines[0] == body[0] && lines[1..] == body[1..] + [delim] + rest;
      ReadUpToDelimiter(body[1..], delim, rest);
    }
  }

  /** The file gets the whole value and a newline if and only if no line of the value is
      the delimiter. */
  lemma {:induction false} DocumentIsWholeIff(value: string, delim: string, rest: seq<string>)
    ensures Unlines(ReadDocument(Lines(value) + [delim] + rest, delim).body) == value + "\n"
        <==> delim !in Lines(value)
  {
    UnlinesOfLines(value);
    var d := ReadDocument(Lines(value) + [delim] + rest, delim);
    if delim !in Lines(value) {
      ReadUpToDelimiter(Lines(value), delim, rest);
    } else {
      CutBeforeDelimiter(Lines(value), delim, rest);
    }
  }

  lemma {:induction false} CutBeforeDelimiter(body: seq<string>, delim: string, rest: seq<string>)
    requires delim in body
    ensures |Unlines(ReadDocument(body + [delim] + rest, delim).body)| < |Unlines(body)|
  {
    var lines := body + [delim] + rest;
    assert lines[0] == body[0] && lines[1..] == body[1..] + [delim] + rest;
    if body[0] != delim {
      CutBeforeDelimiter(body[1..], delim, rest);
      var d := ReadDocument(lines[1..], delim);
      assert ([body[0]] + d.body)[1..] == d.body;
    }
  }

  // ----- the whole script -----

  ghost predicate GoodInput(x: Input) {
    && IsName(x.name)
    && '\'' !in x.delim && '\n' !in x.delim
    && x.delim !in Lines(x.value)
  }

  ghost predicate GoodInputs(inputs: seq<Input>) {
    && (forall i :: 0 <= i < |inputs| ==> GoodInput(inputs[i]))
    && (forall i, j :: 0 <= i < j < |inputs| ==> inputs[i].name != inputs[j].name)
  }

  lemma {:induction false} PathRunOfPath(path: string, rest: string)
    requires forall i :: 0 <= i < |path| ==> IsPathChar(path[i])
    requires rest == "" || !IsPathChar(rest[0])
    ensures PathRun(path + rest) == |path|
  {
    if path == "" {
      assert path + rest == rest;
    } else {
      assert (path + rest)[0] == path[0] && (path + rest)[1..] == path[1..] + rest;
      PathRunOfPath(path[1..], rest);
    }
  }

  lemma {:induction false} QuotedRunOfQuoted(s: string)
    requires '\'' !in s
    ensures QuotedRun(s + "'") == |s|
  {
    if s == "" {
    } else {
      assert (s + "'")[0] == s[0] && s[0] in s && (s + "'")[1..] == s[1..] + "'";
      QuotedRunOfQuoted(s[1..]);
    }
  }

  lemma {:induction false} TargetParses(path: string, delim: string)
    requires '\'' !in delim && forall i :: 0 <= i < |path| ==> IsPathChar(path[i])
    ensures ParseTarget(path + (" <<'" + (delim + "'"))) == Some(Redirect(path, delim))
  {
    var quoted := delim + "'";
    var tail := " <<'" + quoted;
    var rest := path + tail;
    PathRunOfPath(path, tail);
    assert rest[|path|..] == tail && rest[|path| + 4..] == quoted && rest[..|path|] == path;
    assert tail[..4] == " <<'";
    QuotedRunOfQuoted(delim);
    assert quoted[|delim|..] == "'" && quoted[..|delim|] == delim;
  }

  lemma {:induction false} HeaderParses(x: Input)
    requires IsName(x.name) && '\'' !in x.delim
    ensures ParseHeader(Header(x)) == Some(Redirect(TmpPath(x.name), x.delim))
  {
    var path := TmpPath(x.name);
    forall i | 0 <= i < |path| ensures IsPathChar(path[i]) {
      if i >= 5 { assert path[i] == x.name[i - 5]; }
    }
    var rest := path + (" <<'" + (x.delim + "'"));
    assert Header(x) == "cat > " + rest;
    assert Header(x)[..6] == "cat > " && Header(x)[6..] == rest;
    TargetParses(path, x.delim);
  }

  lemma {:induction false} HeaderIsOneLine(x: Input)
    requires IsName(x.name) && '\n' !in x.delim
    ensures Lines(Header(x)) == [Header(x)]
  {
    forall i | 0 <= i < |x.name| ensures x.name[i] != '\n' { assert IsNameChar(x.name[i]); }
    SplitOfPiece(Header(x), '\n');
  }

  lemma {:induction false} DocumentLines(x: Input)
    requires IsName(x.name) && '\n' !in x.delim
    ensures Lines(Document(x)) == [Header(x)] + Lines(x.value) + [x.delim] + [""]
  {
    HeaderIsOneLine(x);
    SplitOfPiece(x.delim, '\n');
    assert Document(x) == Header(x) + "\n" + (x.value + "\n" + (x.delim + "\n" + ""));
    LinesOfJoin(Header(x), x.value + "\n" + (x.delim + "\n" + ""));
    LinesOfJoin(x.value, x.delim + "\n" + "");
    LinesOfJoin(x.delim, "");
  }

  /** Running one document, and the blank line that follows it, writes one file. */
  lemma {:induction false} RunDocument(x: Input, rest: seq<string>, files: Files)
    requires GoodInput(x)
    ensures RunLines(Lines(Document(x)) + rest, files) == RunLines(rest, files[TmpPath(x.name) := x.value + "\n"])
  {
    var tail := Lines(x.value) + [x.delim] + ([""] + rest);
    assert Lines(Document(x)) + rest == [Header(x)] + tail by {
      DocumentLines(x);
    }
    HeaderParses(x);
    ReadUpToDelimiter(Lines(x.value), x.delim, [""] + rest);
    UnlinesOfLines(x.value);
    RunOne(Header(x), tail, files, Redirect(TmpPath(x.name), x.delim), Doc(Lines(x.value), [""] + rest));
    SkipBlank(rest, files[TmpPath(x.name) := x.value + "\n"]);
  }

  lemma {:induction false} RunOne(header: string, tail: seq<string>, files: Files, r: Redirect, d: Doc)
    requires ParseHeader(header) == Some(r) && ReadDocument(tail, r.delim) == d
    ensures RunLines([header] + tail, files) == RunLines(d.rest, files[r.path := Unlines(d.body)])
  {
    assert ([header] + tail)[1..] == tail;
  }

  lemma {:induction false} SkipBlank(rest: seq<string>, files: Files)
    ensures RunLines([""] + rest, files) == RunLines(rest, files)
  {
    assert ([""] + rest)[1..] == rest && ParseHeader("") == None;
  }

  /** The files after the script: every input's value and a newline. */
  function Written(inputs: seq<Input>, files: Files): Files {
    if inputs == [] then files
    else Written(inputs[1..], files[TmpPath(inputs[0].name) := inputs[0].value + "\n"])
  }

  lemma {:induction false} ScriptWritesFiles(inputs: seq<Input>, files: Files)
    requires GoodInputs(inputs)
    ensures RunLines(Lines(Script(inputs)), files) == Written(inputs, files)
  {
    if inputs == [] {
      assert Lines("") == [""] && ParseHeader("") == None && [""][1..] == [];
    } else {
      var x := inputs[0];
      var files' := files[TmpPath(x.name) := x.value + "\n"];
      if |inputs| == 1 {
        RunDocument(x, [], files);
        assert Lines(Document(x)) + [] == Lines(Document(x));
        assert inputs[1..] == [];
      } else {
        LinesOfJoin(Document(x), Script(inputs[1..]));
        RunDocument(x, Lines(Script(inputs[1..])), files);
        ScriptWritesFiles(inputs[1..], files');
      }
    }
  }

  lemma {:induction false} WrittenAt(inputs: seq<Input>, files: Files)
    requires forall i, j :: 0 <= i < j < |inputs| ==> inputs[i].name != inputs[j].name
    ensures forall i :: 0 <= i < |inputs| ==>
              TmpPath(inputs[i].name) in Written(inputs, files)
              && Written(inputs, files)[TmpPath(inputs[i].name)] == inputs[i].value + "\n"
    ensures forall p :: p in files && (forall i :: 0 <= i < |inputs| ==> TmpPath(inputs[i].name) != p)
              ==> p in Written(inputs, files) && Written(inputs, files)[p] == files[p]
  {
    if inputs == [] {
    } else {
      var x := inputs[0];
      var files' := files[TmpPath(x.name) := x.value + "\n"];
      WrittenAt(inputs[1..], files');
      forall i | 0 < i < |inputs|
        ensures inputs[i] == inputs[1..][i - 1] && TmpPath(inputs[i].name) != TmpPath(x.name)
      {
        assert inputs[0].name != inputs[i].name;
        assert TmpPath(inputs[i].name)[5..] == inputs[i].name && TmpPath(x.name)[5..] == x.name;
      }
    }
  }

  // ----- reading the files back -----

  /** `read_text` in text mode: "\r\n" and "\r" become "\n". */
  function UniversalNewlines(s: string): string {
    if s == "" then ""
    else if s[0] != '\r' then [s[0]] + UniversalNewlines(s[1..])
    else if |s| > 1 && s[1] == '\n' then "\n" + UniversalNewlines(s[2..])
    else "\n" + UniversalNewlines(s[1..])
  }

  /** `rstrip("\n")`. */
  function RStrip(s: string): string {
    if s != "" && s[|s| - 1] == '\n' then RStrip(s[..|s| - 1]) else s
  }

  datatype Field = Field(key: string, value: Value)

  /** A JSON value; `Scalar` is anything that is not a string, a list or an object. */
  datatype Value = Str(s: string) | Dict(fields: seq<Field>) | List(items: seq<Value>) | Scalar(text: string)

  /** `_read_tmp_file_if_exists`. */
  function ReadIfExists(v: Value, files: Files): Value {
    if !v.Str? then v
    else if !("/tmp/" <= v.s) || v.s !in files then v
    else Str(RStrip(UniversalNewlines(files[v.s])))
  }

  /** `_resolve_inputs_from_tmp_files`. */
  function Resolve(v: Value, files: Files): Value
    decreases v
  {
    match v
    case Dict(fields) =>
      Dict(seq(|fields|, i requires 0 <= i < |fields| => Field(fields[i].key, Resolve(fields[i].value, files))))
    case List(items) =>
      List(seq(|items|, i requires 0 <= i < |items| => Resolve(items[i], files)))
    case _ => ReadIfExists(v, files)
  }

  /** The part of a JSON value at a path of indices. */
  function At(v: Value, path: seq<nat>): Option<Value> {
    if path == [] then Some(v)
    else match v
      case Dict(fields) => if path[0] < |fields| then At(fields[path[0]].value, path[1..]) else None
      case List(items) => if path[0] < |items| then At(items[path[0]], path[1..]) else None
      case _ => None
  }

  /** Resolving changes nothing but strings, at any depth: objects and lists keep their keys
      and lengths, and a string is replaced by the text of a file, without the line ends at
      its end, if and only if it begins with "/tmp/" and is the path of one. */
  lemma {:induction false} ResolveAt(v: Value, files: Files, path: seq<nat>)
    ensures At(v, path).Some? <==> At(Resolve(v, files), path).Some?
    ensures At(v, path).Some? ==>
              var part := At(Resolve(v, files), path).value;
              match At(v, path).value
              case Dict(fields) =>
                part.Dict? && |part.fields| == |fields|
                && forall i :: 0 <= i < |fields| ==> part.fields[i].key == fields[i].key
              case List(items) => part.List? && |part.items| == |items|
              case Scalar(_) => part == At(v, path).value
              case Str(s) =>
                part == if "/tmp/" <= s && s in files then Str(RStrip(UniversalNewlines(files[s]))) else Str(s)
  {
    if path == [] {
    } else {
      match v {
        case Dict(fields) => if path[0] < |fields| { ResolveAt(fields[path[0]].value, files, path[1..]); }
        case List(items) => if path[0] < |items| { ResolveAt(items[path[0]], files, path[1..]); }
        case _ =>
      }
    }
  }

  /** The `--inputs` object: every input is passed as the path of its file. */
  function PathInputs(inputs: seq<Input>): Value {
    Dict(seq(|inputs|, i requires 0 <= i < |inputs| => Field(inputs[i].name, Str(TmpPath(inputs[i].name)))))
  }

  function Recovered(value: string): string { RStrip(UniversalNewlines(value + "\n")) }

  lemma {:induction false} ResolvePath(x: Input, files: Files)
    requires TmpPath(x.name) in files && files[TmpPath(x.name)] == x.value + "\n"
    ensures Resolve(Str(TmpPath(x.name)), files) == Str(Recovered(x.value))
  {
    assert TmpPath(x.name)[..5] == "/tmp/";
  }

  /** What the function receives. */
  function RecoveredInputs(inputs: seq<Input>): Value {
    Dict(seq(|inputs|, i requires 0 <= i < |inputs| => Field(inputs[i].name, Str(Recovered(inputs[i].value)))))
  }

  /** Running the script and resolving the paths gives every function argument the
      recovered value of its input, whatever that value looks like: a value that is
      itself the path of another file is not followed. */
  lemma {:induction false} TransportRecoversValues(inputs: seq<Input>)
    requires GoodInputs(inputs)
    ensures Resolve(PathInputs(inputs), RunScript(Script(inputs))) == RecoveredInputs(inputs)
  {
    ScriptWritesFiles(inputs, map[]);
    WrittenAt(inputs, map[]);
    ResolveAll(inputs, RunScript(Script(inputs)));
  }

  lemma {:induction false} ResolveAll(inputs: seq<Input>, files: Files)
    requires forall i :: 0 <= i < |inputs| ==>
               TmpPath(inputs[i].name) in files && files[TmpPath(inputs[i].name)] == inputs[i].value + "\n"
    ensures Resolve(PathInputs(inputs), files) == RecoveredInputs(inputs)
  {
    forall i | 0 <= i < |inputs|
      ensures Resolve(Str(TmpPath(inputs[i].name)), files) == Str(Recovered(inputs[i].value))
    {
      ResolvePath(inputs[i], files);
    }
    assert Resolve(PathInputs(inputs), files).fields == RecoveredInputs(inputs).fields;
  }

  // ----- how much of a value is recovered -----

  /** Every line end is read as a line feed, and no other character changes: the text can be
      cut anywhere but between "\r" and "\n". */
  lemma {:induction false} UniversalOfParts(a: string, b: string)
    requires a != "" && a[|a| - 1] == '\r' ==> b == "" || b[0] != '\n'
    ensures UniversalNewlines(a + b) == UniversalNewlines(a) + UniversalNewlines(b)
    ensures UniversalNewlines("\r\n") == "\n" && UniversalNewlines("\r") == "\n"
    ensures forall c :: c != '\r' ==> UniversalNewlines([c]) == [c]
    decreases |a|
  {
    UniversalOfOne();
    var s := a + b;
    if a == "" {
      assert s == b;
    } else if a[0] == '\r' && |a| > 1 && a[1] == '\n' {
      assert s[2..] == a[2..] + b;
      UniversalOfParts(a[2..], b);
      ConcatAssoc("\n", UniversalNewlines(a[2..]), UniversalNewlines(b));
    } else {
      assert s[1..] == a[1..] + b;
      UniversalOfParts(a[1..], b);
      ConcatAssoc(if a[0] == '\r' then "\n" else [a[0]], UniversalNewlines(a[1..]), UniversalNewlines(b));
    }
  }

  lemma {:induction false} UniversalOfOne()
    ensures UniversalNewlines("\r\n") == "\n" && UniversalNewlines("\r") == "\n"
    ensures forall c :: c != '\r' ==> UniversalNewlines([c]) == [c]
  {
    assert "\r\n"[2..] == "" && "\r"[1..] == "";
    forall c | c != '\r' ensures UniversalNewlines([c]) == [c] {
      assert [c][1..] == "";
    }
  }

  lemma {:induction false} UniversalWithoutCR(s: string)
    requires '\r' !in s
    ensures UniversalNewlines(s) == s
  {
    if s == "" {
    } else {
      assert s[0] in s;
      UniversalWithoutCR(s[1..]);
      assert [s[0]] + s[1..] == s;
    }
  }

  lemma {:induction false} UniversalHasNoCR(s: string)
    ensures '\r' !in UniversalNewlines(s)
    decreases |s|
  {
    if s == "" {
    } else {
      if s[0] == '\r' && |s| > 1 && s[1] == '\n' {
        UniversalHasNoCR(s[2..]);
      } else {
        UniversalHasNoCR(s[1..]);
      }
    }
  }

  lemma {:induction false} RStripIsPrefix(s: string)
    ensures RStrip(s) <= s
    ensures forall i :: |RStrip(s)| <= i < |s| ==> s[i] == '\n'
    ensures RStrip(s) == s <==> s == "" || s[|s| - 1] != '\n'
  {
    if s != "" && s[|s| - 1] == '\n' {
      RStripIsPrefix(s[..|s| - 1]);
    }
  }

  /** The value minus its trailing newlines comes back if and only if it contains no
      carriage return; the value itself if and only if moreover it does not end in a
      newline. */
  lemma {:induction false} RecoveredIff(value: string)
    ensures Recovered(value) == RStrip(value) <==> '\r' !in value
    ensures Recovered(value) == value <==> '\r' !in value && (value == "" || value[|value| - 1] != '\n')
  {
    RStripIsPrefix(value);
    var text := UniversalNewlines(value + "\n");
    RStripIsPrefix(text);
    UniversalHasNoCR(value + "\n");
    if '\r' !in value {
      UniversalWithoutCR(value + "\n");
      assert (value + "\n")[..|value|] == value;
    } else {
      var i :| 0 <= i < |value| && value[i] == '\r';
      assert RStrip(value)[i] == '\r';
      assert '\r' in RStrip(value) && '\r' !in RStrip(text);
    }
  }

  // ----- the block as it is printed -----

  /** The inputs with their placeholders for values. */
  function Holes(inputs: seq<Input>): seq<Input> {
    seq(|inputs|, i requires 0 <= i < |inputs| => inputs[i].(value := Pattern(inputs[i].name)))
  }

  function Printed(x: Input): string { Header(x) + "\n" + Pattern(x.name) + "\n" + x.delim + "\n" }

  /** The loop over `input_names_for_heredoc`: the commands, joined by newlines, are the
      script of the placeholders. */
  method BuildHeredocs(inputs: seq<Input>) returns (commands: seq<string>)
    ensures Join(commands, "\n") == Script(Holes(inputs))
  {
    commands := [];
    for i := 0 to |inputs|
      invariant |commands| == i && forall j :: 0 <= j < i ==> commands[j] == Printed(inputs[j])
    {
      commands := commands + [Printed(inputs[i])];
    }
    JoinDocuments(Holes(inputs), commands);
  }

  lemma {:induction false} JoinDocuments(inputs: seq<Input>, commands: seq<string>)
    requires |commands| == |inputs| && forall j :: 0 <= j < |inputs| ==> commands[j] == Document(inputs[j])
    ensures Join(commands, "\n") == Script(inputs)
  {
    if inputs == [] {
    } else {
      JoinDocuments(inputs[1..], commands[1..]);
    }
  }

  // ----- replacing in the block is replacing in each value -----

  /** A character that no placeholder contains. */
  predicate IsSeparator(c: char) { !IsNameChar(c) && c != '{' && c != '}' }

  /** Such a character separates: no placeholder reaches across it. */
  lemma {:induction false} ReplaceSplit(text: string, rest: string, name: string, val: string)
    requires IsName(name) && rest != "" && IsSeparator(rest[0])
    ensures Replace(text + rest, Pattern(name), val)
         == Replace(text, Pattern(name), val) + Replace(rest, Pattern(name), val)
    decreases |text|
  {
    hide Replace;
    var pat := Pattern(name);
    var end := Replace(rest, pat, val);
    if text == "" {
      assert text + rest == rest && "" + end == end;
      ReplaceNothing(name, val);
    } else if pat <= text {
      var tail := text[|pat|..];
      assert text == pat + tail;
      ReplaceSplit(tail, rest, name, val);
      ConcatAssoc(pat, tail, rest);
      ReplaceHit(tail, pat, val);
      ReplaceHit(tail + rest, pat, val);
      ConcatAssoc(val, Replace(tail, pat, val), end);
    } else {
      var first, tail := text[..1], text[1..];
      assert text == first + tail;
      NoMatchAcross(text, rest, name);
      ReplaceSplit(tail, rest, name, val);
      ConcatAssoc(first, tail, rest);
      ReplaceMiss(first, tail, pat, val);
      ReplaceMiss(first, tail + rest, pat, val);
      ConcatAssoc(first, Replace(tail, pat, val), end);
    }
  }

  lemma {:induction false} ReplaceHit(tail: string, pat: string, val: string)
    requires pat != ""
    ensures Replace(pat + tail, pat, val) == val + Replace(tail, pat, val)
  {
    assert pat <= pat + tail && (pat + tail)[|pat|..] == tail;
  }

  lemma {:induction false} ReplaceMiss(first: string, tail: string, pat: string, val: string)
    requires |first| == 1 && pat != "" && !(pat <= first + tail)
    ensures Replace(first + tail, pat, val) == first + Replace(tail, pat, val)
  {
    assert (first + tail)[1..] == tail && [(first + tail)[0]] == first;
  }

  lemma {:induction false} NoMatchAcross(text: string, rest: string, name: string)
    requires IsName(name) && rest != "" && IsSeparator(rest[0]) && !(Pattern(name) <= text)
    ensures !(Pattern(name) <= text + rest)
  {
    var s, pat := text + rest, Pattern(name);
    if pat <= s {
      PrefixOccurs(pat, s);
      if |pat| > |text| {
        NoSeparatorInPattern(name, s, 0, |text|);
      } else {
        PrefixOfPart(pat, text, rest);
      }
    }
  }

  lemma {:induction false} PrefixOfPart(pat: string, text: string, rest: string)
    requires pat <= text + rest && |pat| <= |text|
    ensures pat <= text
  {
    assert text[..|pat|] == (text + rest)[..|pat|];
  }

  lemma {:induction false} NoSeparatorInPattern(name: string, s: string, p: nat, q: nat)
    requires IsName(name) && OccursAt(Pattern(name), s, p) && p <= q < p + |Pattern(name)|
    ensures !IsSeparator(s[q])
  {
    var k := q - p;
    assert s[q] == s[p..p + |Pattern(name)|][k] == Pattern(name)[k];
    assert 2 <= k < |name| + 2 ==> Pattern(name)[k] == name[k - 2] && IsNameChar(name[k - 2]);
  }

  lemma {:induction false} ReplacePastPlain(text: string, rest: string, name: string, val: string)
    requires '{' !in text
    ensures Replace(text + rest, Pattern(name), val) == text + Replace(rest, Pattern(name), val)
  {
    NoDoubleBraceNoStart(text, rest, name);
    ReplacePast(text, rest, Pattern(name), val);
  }

  lemma {:induction false} ReplaceNothing(name: string, val: string)
    ensures Replace("", Pattern(name), val) == ""
  {
  }

  /** The text around a value has no braces, and a line end follows the value. */
  lemma {:induction false} ReplaceAroundValue(
    header: string, value: string, footer: string, more: string, name: string, val: string)
    requires IsName(name) && '{' !in header && '{' !in footer && footer != "" && footer[0] == '\n'
    ensures Replace(header + (value + (footer + more)), Pattern(name), val)
         == header + (Replace(value, Pattern(name), val) + (footer + Replace(more, Pattern(name), val)))
  {
    hide Replace, Pattern;
    ReplacePastPlain(header, value + (footer + more), name, val);
    ReplaceSplit(value, footer + more, name, val);
    ReplacePastPlain(footer, more, name, val);
  }

  /** Names and delimiters as the code makes them. */
  ghost predicate PlainInput(x: Input) {
    IsName(x.name) && '{' !in x.delim && '\'' !in x.delim && '\n' !in x.delim
  }

  ghost predicate PlainInputs(inputs: seq<Input>) {
    && (forall i :: 0 <= i < |inputs| ==> PlainInput(inputs[i]))
    && (forall i, j :: 0 <= i < j < |inputs| ==> inputs[i].name != inputs[j].name)
  }

  lemma {:induction false} ReplaceInDocument(x: Input, more: string, name: string, val: string)
    requires PlainInput(x) && IsName(name)
    ensures Replace(Document(x) + more, Pattern(name), val)
         == Document(x.(value := Replace(x.value, Pattern(name), val))) + Replace(more, Pattern(name), val)
  {
    hide Replace, Pattern;
    var header, footer := Header(x) + "\n", "\n" + x.delim + "\n";
    NamesHaveNoBraces(x.name);
    var value, rest := Replace(x.value, Pattern(name), val), Replace(more, Pattern(name), val);
    assert Document(x) + more == header + (x.value + (footer + more));
    ReplaceAroundValue(header, x.value, footer, more, name, val);
    assert Document(x.(value := value)) + rest == header + (value + (footer + rest));
  }

  /** The inputs with one placeholder replaced in each value. */
  function ReplacedIn(inputs: seq<Input>, name: string, val: string): seq<Input> {
    seq(|inputs|, i requires 0 <= i < |inputs| =>
      inputs[i].(value := Replace(inputs[i].value, Pattern(name), val)))
  }

  lemma {:induction false} ReplaceInScript(inputs: seq<Input>, name: string, val: string)
    requires (forall i :: 0 <= i < |inputs| ==> PlainInput(inputs[i])) && IsName(name)
    ensures Replace(Script(inputs), Pattern(name), val) == Script(ReplacedIn(inputs, name, val))
  {
    hide Replace, Pattern, Document;
    ReplaceNothing(name, val);
    if inputs == [] {
    } else {
      var x, rest := inputs[0], inputs[1..];
      var out := ReplacedIn(inputs, name, val);
      ReplaceInScript(rest, name, val);
      assert out[1..] == ReplacedIn(rest, name, val);
      if rest == [] {
        assert Document(x) + "" == Document(x) && Document(out[0]) + "" == Document(out[0]);
        ReplaceInDocument(x, "", name, val);
      } else {
        var more := Script(rest);
        ReplaceInDocument(x, "\n" + more, name, val);
        ReplacePastPlain("\n", more, name, val);
        ConcatAssoc(Document(x), "\n", more);
        ConcatAssoc(Document(out[0]), "\n", Script(out[1..]));
      }
    }
  }

  // ----- what arrives: the placeholder of each input, replaced key by key on its own -----

  function Values(inputs: seq<Input>): Replacements {
    seq(|inputs|, i requires 0 <= i < |inputs| => (inputs[i].name, inputs[i].value))
  }

  /** `{**inputs, **output_file_paths}` when no output has the name of an input. */
  function Dictionary(inputs: seq<Input>, outputs: Replacements): Replacements { Values(inputs) + outputs }

  /** A node: its inputs, and its outputs with their temporary paths, all named apart. */
  ghost predicate Node(inputs: seq<Input>, outputs: Replacements) {
    PlainInputs(inputs) && NameKeys(outputs) && DistinctKeys(Dictionary(inputs, outputs))
  }

  function Arriving(inputs: seq<Input>, kvs: Replacements): seq<Input> {
    seq(|inputs|, i requires 0 <= i < |inputs| =>
      inputs[i].(value := ReplaceAll(Pattern(inputs[i].name), kvs, {})))
  }

  /** For every dictionary, in every order and with any values: replacing in the printed
      block gives the script of the arriving values. */
  lemma {:induction false} BlockIsScriptOfArriving(inputs: seq<Input>, kvs: Replacements)
    requires PlainInputs(inputs) && NameKeys(kvs)
    ensures ReplaceAll(Script(Holes(inputs)), kvs, {}) == Script(Arriving(inputs, kvs))
  {
    hide Script, Replace, Pattern;
    if kvs == [] {
      assert Arriving(inputs, kvs) == Holes(inputs);
    } else {
      var init, last := kvs[..|kvs| - 1], kvs[|kvs| - 1];
      var before := Arriving(inputs, init);
      BlockIsScriptOfArriving(inputs, init);
      assert forall i :: 0 <= i < |before| ==> PlainInput(before[i]);
      ReplaceInScript(before, last.0, last.1);
      assert ReplacedIn(before, last.0, last.1) == Arriving(inputs, kvs);
    }
  }

  /** From the printed block to the argument of the function, for every dictionary and
      order: the function receives what is recovered of the arriving values. */
  lemma {:induction false} PrintedBlockTransports(inputs: seq<Input>, kvs: Replacements)
    requires PlainInputs(inputs) && NameKeys(kvs) && GoodInputs(Arriving(inputs, kvs))
    ensures Resolve(PathInputs(inputs), RunScript(ReplaceAll(Script(Holes(inputs)), kvs, {})))
         == RecoveredInputs(Arriving(inputs, kvs))
  {
    hide RunScript, Resolve, Script, ReplaceAll;
    BlockIsScriptOfArriving(inputs, kvs);
    TransportRecoversValues(Arriving(inputs, kvs));
    assert PathInputs(Arriving(inputs, kvs)) == PathInputs(inputs);
  }

  // ----- when the values arrive unchanged -----

  /** The value does not contain the placeholder of the entry, unless the entry's value is
      this very placeholder. */
  ghost predicate KeepsApart(value: string, entry: (string, string)) {
    entry.1 == Pattern(entry.0) || !Occurs(Pattern(entry.0), value)
  }

  /** No input's value contains the placeholder of another input or of an output. */
  ghost predicate ValuesKeepApart(inputs: seq<Input>, outputs: Replacements) {
    var entries := Dictionary(inputs, outputs);
    forall i, k :: 0 <= i < |inputs| && 0 <= k < |entries| && i != k ==> KeepsApart(inputs[i].value, entries[k])
  }

  lemma {:induction false} ReplaceNone(s: string, pat: string, val: string)
    requires pat != "" && !Occurs(pat, s)
    ensures Replace(s, pat, val) == s
  {
    forall p ensures !OccursAt(pat, s + "", p) { assert s + "" == s; }
    ReplacePast(s, "", pat, val);
    assert s + "" == s && Replace("", pat, val) == "";
  }

  lemma {:induction false} KeptApartIsUnchanged(value: string, entry: (string, string))
    requires KeepsApart(value, entry)
    ensures Replace(value, Pattern(entry.0), entry.1) == value
  {
    if entry.1 == Pattern(entry.0) {
      ReplaceByItself(value, entry.1);
    } else {
      ReplaceNone(value, Pattern(entry.0), entry.1);
    }
  }

  lemma {:induction false} DisturbedIsChanged(value: string, entry: (string, string))
    requires !KeepsApart(value, entry)
    ensures Replace(value, Pattern(entry.0), entry.1) != value
  {
    var p :| OccursAt(Pattern(entry.0), value, p);
    ReplaceChanges(value, Pattern(entry.0), entry.1, p);
  }

  /** A placeholder among other keys stays as it is. */
  lemma {:induction false} PlaceholderWaits(name: string, kvs: Replacements)
    requires IsName(name) && NameKeys(kvs) && forall k :: 0 <= k < |kvs| ==> kvs[k].0 != name
    ensures ReplaceAll(Pattern(name), kvs, {}) == Pattern(name)
  {
    hide Replace, Pattern;
    if kvs == [] {
    } else {
      var last := kvs[|kvs| - 1];
      PlaceholderWaits(name, kvs[..|kvs| - 1]);
      NamesHaveNoBraces(last.0);
      NoReplace(name, last.0, last.1);
    }
  }

  /** When its own turn comes, the value takes the place of the placeholder. */
  lemma {:induction false} OwnTurn(name: string, value: string, kvs: Replacements)
    requires IsName(name) && NameKeys(kvs) && kvs != [] && kvs[|kvs| - 1] == (name, value)
    requires forall k :: 0 <= k < |kvs| - 1 ==> kvs[k].0 != name
    ensures ReplaceAll(Pattern(name), kvs, {}) == value
  {
    hide Replace, Pattern;
    PlaceholderWaits(name, kvs[..|kvs| - 1]);
    WholeReplace(name, value);
  }

  /** A value that no later entry changes arrives as it is. */
  lemma {:induction false} ArrivesUnchanged(name: string, value: string, kvs: Replacements, n: nat)
    requires IsName(name) && NameKeys(kvs) && DistinctKeys(kvs) && n < |kvs| && kvs[n] == (name, value)
    requires forall k :: n < k < |kvs| ==> Replace(value, Pattern(kvs[k].0), kvs[k].1) == value
    ensures ReplaceAll(Pattern(name), kvs, {}) == value
  {
    hide Replace, Pattern;
    if n == |kvs| - 1 {
      OwnTurn(name, value, kvs);
    } else {
      var init := kvs[..|kvs| - 1];
      assert forall k :: 0 <= k < |init| ==> init[k] == kvs[k];
      ArrivesUnchanged(name, value, init, n);
    }
  }

  /** The placeholder of an entry arrives as the entry's value, in every order, if that
      keeps apart from all other entries. */
  lemma {:induction false} EntryArrives(kvs: Replacements, n: nat)
    requires DistinctKeys(kvs) && NameKeys(kvs) && n < |kvs|
    requires forall k :: 0 <= k < |kvs| && k != n ==> KeepsApart(kvs[n].1, kvs[k])
    ensures ReplaceAll(Pattern(kvs[n].0), kvs, {}) == kvs[n].1
  {
    hide Replace, Pattern, KeepsApart;
    forall k | n < k < |kvs| ensures Replace(kvs[n].1, Pattern(kvs[k].0), kvs[k].1) == kvs[n].1 {
      KeptApartIsUnchanged(kvs[n].1, kvs[k]);
    }
    ArrivesUnchanged(kvs[n].0, kvs[n].1, kvs, n);
  }

  lemma {:induction false} DictionaryKeys(inputs: seq<Input>, outputs: Replacements, kvs: Replacements)
    requires Node(inputs, outputs) && Reorders(kvs, Dictionary(inputs, outputs))
    ensures DistinctKeys(kvs) && NameKeys(kvs)
  {
    var entries := Dictionary(inputs, outputs);
    ReorderedEntries(entries, kvs);
    forall k | 0 <= k < |kvs| ensures IsName(kvs[k].0) {
      var c :| 0 <= c < |entries| && entries[c] == kvs[k];
    }
  }

  /** Where entry k of the dictionary is in an order of it. */
  lemma {:induction false} PlaceOf(entries: Replacements, kvs: Replacements, k: nat) returns (n: nat)
    requires DistinctKeys(entries) && Reorders(kvs, entries) && k < |entries|
    ensures n < |kvs| && kvs[n] == entries[k]
    ensures forall c :: 0 <= c < |kvs| && c != n ==> kvs[c] in entries && kvs[c].0 != entries[k].0
  {
    ReorderedEntries(entries, kvs);
    hide Reorders;
    n :| 0 <= n < |kvs| && kvs[n] == entries[k];
    forall c | 0 <= c < |kvs| && c != n ensures kvs[c].0 != entries[k].0 {
      assert if c < n then kvs[c].0 != kvs[n].0 else kvs[n].0 != kvs[c].0;
    }
  }

  lemma {:induction false} KeptApartArrives(inputs: seq<Input>, outputs: Replacements, kvs: Replacements)
    requires Node(inputs, outputs) && ValuesKeepApart(inputs, outputs) && Reorders(kvs, Dictionary(inputs, outputs))
    ensures Arriving(inputs, kvs) == inputs && NameKeys(kvs)
  {
    hide ReplaceAll, KeepsApart;
    var entries := Dictionary(inputs, outputs);
    DictionaryKeys(inputs, outputs, kvs);
    forall i | 0 <= i < |inputs| ensures ReplaceAll(Pattern(inputs[i].name), kvs, {}) == inputs[i].value {
      var n := PlaceOf(entries, kvs, i);
      forall c | 0 <= c < |kvs| && c != n ensures KeepsApart(kvs[n].1, kvs[c]) {
        var d :| 0 <= d < |entries| && entries[d] == kvs[c];
        assert d != i;
      }
      EntryArrives(kvs, n);
    }
  }

  /** An output with the name of an input takes its place in the dictionary: whatever the
      other entries, the input arrives as the path, which contains no brace. */
  lemma {:induction false} OutputTakesPlace(x: Input, kvs: Replacements, n: nat)
    requires DistinctKeys(kvs) && NameKeys(kvs) && n < |kvs| && kvs[n].0 == x.name && '{' !in kvs[n].1
    ensures Arriving([x], kvs) == [x.(value := kvs[n].1)]
  {
    forall k | 0 <= k < |kvs| ensures KeepsApart(kvs[n].1, kvs[k]) {
      BraceFreeKeepsApart(kvs[n].1, kvs[k]);
    }
    EntryArrives(kvs, n);
  }

  lemma {:induction false} BraceFreeKeepsApart(value: string, entry: (string, string))
    requires '{' !in value
    ensures KeepsApart(value, entry)
  {
    if Occurs(Pattern(entry.0), value) {
      var p :| OccursAt(Pattern(entry.0), value, p);
      OccurrenceStartsWithBraces(entry.0, value, p);
    }
  }

  /** An order in which a value with another entry's placeholder arrives changed: these two
      come last. */
  lemma {:induction false} ChangedArrival(inputs: seq<Input>, outputs: Replacements, i: nat, k: nat)
    returns (kvs: Replacements)
    requires Node(inputs, outputs) && i < |inputs| && k < |Dictionary(inputs, outputs)| && i != k
    requires !KeepsApart(inputs[i].value, Dictionary(inputs, outputs)[k])
    ensures Reorders(kvs, Dictionary(inputs, outputs)) && NameKeys(kvs)
    ensures var entry := Dictionary(inputs, outputs)[k];
            Arriving(inputs, kvs)[i].value == Replace(inputs[i].value, Pattern(entry.0), entry.1) != inputs[i].value
  {
    var entries, x := Dictionary(inputs, outputs), inputs[i];
    hide Replace, Pattern, KeepsApart;
    DisturbedIsChanged(x.value, entries[k]);
    var others := MoveToEnd(entries, i, k);
    kvs := others + [entries[i], entries[k]];
    DictionaryKeys(inputs, outputs, kvs);
    TwoLast(others, (x.name, x.value), entries[k]);
  }

  lemma {:induction false} TwoLast(others: Replacements, a: (string, string), b: (string, string))
    requires DistinctKeys(others + [a, b]) && NameKeys(others + [a, b])
    ensures ReplaceAll(Pattern(a.0), others + [a, b], {}) == Replace(a.1, Pattern(b.0), b.1)
  {
    hide Replace, Pattern;
    var kvs, init := others + [a, b], others + [a];
    assert kvs[..|kvs| - 1] == init;
    assert forall n :: 0 <= n < |init| ==> init[n] == kvs[n];
    assert kvs[|others|] == a;
    OwnTurn(a.0, a.1, init);
  }

  /** Exactly when every value arrives unchanged, in every order of the dictionary. */
  lemma {:induction false} ArrivesIffKeptApart(inputs: seq<Input>, outputs: Replacements)
    requires Node(inputs, outputs)
    ensures (forall kvs :: Reorders(kvs, Dictionary(inputs, outputs)) ==> Arriving(inputs, kvs) == inputs)
       <==> ValuesKeepApart(inputs, outputs)
  {
    if ValuesKeepApart(inputs, outputs) {
      forall kvs | Reorders(kvs, Dictionary(inputs, outputs)) ensures Arriving(inputs, kvs) == inputs {
        KeptApartArrives(inputs, outputs, kvs);
      }
    } else {
      var i, k := Disturbed(inputs, outputs);
      var kvs := ChangedArrival(inputs, outputs, i, k);
    }
  }

  lemma {:induction false} Disturbed(inputs: seq<Input>, outputs: Replacements) returns (i: nat, k: nat)
    requires !ValuesKeepApart(inputs, outputs)
    ensures i < |inputs| && k < |Dictionary(inputs, outputs)| && i != k
    ensures !KeepsApart(inputs[i].value, Dictionary(inputs, outputs)[k])
  {
    var entries := Dictionary(inputs, outputs);
    i, k :| 0 <= i < |inputs| && 0 <= k < |entries| && i != k && !KeepsApart(inputs[i].value, entries[k]);
  }

  /** If the values keep apart, the script comes out in every order. */
  lemma {:induction false} FilledBlockIsScript(inputs: seq<Input>, outputs: Replacements, kvs: Replacements)
    requires Node(inputs, outputs) && ValuesKeepApart(inputs, outputs) && Reorders(kvs, Dictionary(inputs, outputs))
    ensures ReplaceAll(Script(Holes(inputs)), kvs, {}) == Script(inputs)
  {
    KeptApartArrives(inputs, outputs, kvs);
    BlockIsScriptOfArriving(inputs, kvs);
  }

  /** If the values keep apart, the function receives the recovered values. */
  lemma {:induction false} PrintedBlockTransportsValues(
    inputs: seq<Input>, outputs: Replacements, kvs: Replacements)
    requires Node(inputs, outputs) && GoodInputs(inputs)
    requires ValuesKeepApart(inputs, outputs) && Reorders(kvs, Dictionary(inputs, outputs))
    ensures Resolve(PathInputs(inputs), RunScript(ReplaceAll(Script(Holes(inputs)), kvs, {})))
         == RecoveredInputs(inputs)
  {
    KeptApartArrives(inputs, outputs, kvs);
    PrintedBlockTransports(inputs, kvs);
  }

  // ----- and only then -----

  /** No arriving value has its delimiter as a line; delimiters are random. */
  ghost predicate FreshDelims(inputs: seq<Input>, outputs: Replacements) {
    forall kvs :: Reorders(kvs, Dictionary(inputs, outputs)) ==> GoodInputs(Arriving(inputs, kvs))
  }

  /** A script determines the values in it. */
  lemma {:induction false} ScriptDeterminesValues(inputs: seq<Input>, others: seq<Input>, i: nat)
    requires GoodInputs(inputs) && GoodInputs(others) && |others| == |inputs| && Script(others) == Script(inputs)
    requires i < |inputs| && others[i].name == inputs[i].name
    ensures others[i].value == inputs[i].value
  {
    ScriptWritesFiles(inputs, map[]);
    ScriptWritesFiles(others, map[]);
    WrittenAt(inputs, map[]);
    WrittenAt(others, map[]);
    var a, b := inputs[i].value, others[i].value;
    assert a + "\n" == b + "\n";
    assert (a + "\n")[..|a|] == a && (b + "\n")[..|b|] == b;
  }

  /** Exactly when the printed block becomes the script, in every order of the
      dictionary, for any number of inputs and outputs. */
  lemma {:induction false} BlockIffKeptApart(inputs: seq<Input>, outputs: Replacements)
    requires Node(inputs, outputs) && GoodInputs(inputs) && FreshDelims(inputs, outputs)
    ensures (forall kvs :: Reorders(kvs, Dictionary(inputs, outputs)) ==>
               ReplaceAll(Script(Holes(inputs)), kvs, {}) == Script(inputs))
       <==> ValuesKeepApart(inputs, outputs)
  {
    hide Script, Replace, Pattern, ReplaceAll, KeepsApart, GoodInputs, ValuesKeepApart;
    if ValuesKeepApart(inputs, outputs) {
      forall kvs | Reorders(kvs, Dictionary(inputs, outputs))
        ensures ReplaceAll(Script(Holes(inputs)), kvs, {}) == Script(inputs)
      {
        FilledBlockIsScript(inputs, outputs, kvs);
      }
    } else {
      var i, k := Disturbed(inputs, outputs);
      var kvs := ChangedArrival(inputs, outputs, i, k);
      BlockIsScriptOfArriving(inputs, kvs);
      if Script(Arriving(inputs, kvs)) == Script(inputs) {
        ScriptDeterminesValues(inputs, Arriving(inputs, kvs), i);
      }
    }
  }

  /** Two documents, one of them the same, are determined by the other value. */
  lemma {:induction false} TwoDocuments(a: Input, a': Input, b: Input, b': Input)
    requires a' == a.(value := a'.value) && b' == b.(value := b'.value)
    requires Script([a', b']) == Script([a, b]) && (a' == a || b' == b)
    ensures a' == a && b' == b
  {
    ScriptOfTwo(a, b);
    ScriptOfTwo(a', b');
    if b' == b {
      SameMiddle(Header(a) + "\n", a.value, a'.value, "\n" + a.delim + "\n" + "\n" + Document(b));
    } else {
      SameMiddle(Document(a) + "\n" + Header(b) + "\n", b.value, b'.value, "\n" + b.delim + "\n");
    }
  }

  lemma {:induction false} ScriptOfTwo(a: Input, b: Input)
    ensures Script([a, b]) == Header(a) + "\n" + a.value + ("\n" + a.delim + "\n" + "\n" + Document(b))
    ensures Script([a, b]) == Document(a) + "\n" + Header(b) + "\n" + b.value + ("\n" + b.delim + "\n")
  {
    hide Header;
    assert [a, b][1..] == [b];
  }

  lemma {:induction false} SameMiddle(x: string, v: string, w: string, y: string)
    requires x + v + y == x + w + y
    ensures v == w
  {
    assert |v| == |w|;
    assert v == (x + v + y)[|x|..|x| + |v|] == (x + w + y)[|x|..|x| + |w|] == w;
  }

  lemma {:induction false} DocumentDeterminesValue(x: Input, y: Input)
    requires y == x.(value := y.value) && Document(y) == Document(x)
    ensures y.value == x.value
  {
    DocumentAroundValue(x);
    DocumentAroundValue(y);
    SameMiddle(Header(x) + "\n", x.value, y.value, "\n" + x.delim + "\n");
  }

  lemma {:induction false} DocumentAroundValue(x: Input)
    ensures Document(x) == Header(x) + "\n" + x.value + ("\n" + x.delim + "\n")
  {
    hide Header;
  }

  /** For a single input and any outputs, without any condition on the delimiters. */
  lemma {:induction false} OneInputIffKeptApart(x: Input, outputs: Replacements)
    requires Node([x], outputs)
    ensures (forall kvs :: Reorders(kvs, Dictionary([x], outputs)) ==>
               ReplaceAll(Script(Holes([x])), kvs, {}) == Script([x]))
       <==> ValuesKeepApart([x], outputs)
  {
    var inputs := [x];
    hide ReplaceAll, Replace, Pattern, KeepsApart, ValuesKeepApart;
    if ValuesKeepApart(inputs, outputs) {
      forall kvs | Reorders(kvs, Dictionary(inputs, outputs))
        ensures ReplaceAll(Script(Holes(inputs)), kvs, {}) == Script(inputs)
      {
        FilledBlockIsScript(inputs, outputs, kvs);
      }
    } else {
      var i, k := Disturbed(inputs, outputs);
      var kvs := ChangedArrival(inputs, outputs, i, k);
      BlockIsScriptOfArriving(inputs, kvs);
      var out := Arriving(inputs, kvs)[0];
      assert Arriving(inputs, kvs) == [out];
      if Document(out) == Document(x) {
        DocumentDeterminesValue(x, out);
      }
    }
  }

  /** For two inputs of a node without outputs, without any condition on the delimiters. */
  lemma {:induction false} PairIffKeptApart(a: Input, b: Input)
    requires Node([a, b], [])
    ensures (forall kvs :: Reorders(kvs, Dictionary([a, b], [])) ==>
               ReplaceAll(Script(Holes([a, b])), kvs, {}) == Script([a, b]))
       <==> ValuesKeepApart([a, b], [])
  {
    var inputs := [a, b];
    hide ReplaceAll, Replace, Pattern, KeepsApart, ValuesKeepApart;
    if ValuesKeepApart(inputs, []) {
      forall kvs | Reorders(kvs, Dictionary(inputs, []))
        ensures ReplaceAll(Script(Holes(inputs)), kvs, {}) == Script(inputs)
      {
        FilledBlockIsScript(inputs, [], kvs);
      }
    } else {
      var i, k := Disturbed(inputs, []);
      PairDisturbed(inputs, i, k);
    }
  }

  lemma {:induction false} PairReorders(inputs: seq<Input>, i: nat, j: nat)
    requires |inputs| == 2 && i < 2 && j < 2 && i != j
    ensures Reorders([Values(inputs)[i], Values(inputs)[j]], Dictionary(inputs, []))
  {
    var a, b := Values(inputs)[0], Values(inputs)[1];
    assert Dictionary(inputs, []) == [a, b];
    hide Dictionary;
    SwapReorders(a, b);
  }

  lemma {:induction false} SwapReorders(a: (string, string), b: (string, string))
    ensures Reorders([a, b], [a, b]) && Reorders([b, a], [a, b])
  {
    assert [a, b] == [a] + [b] && [b, a] == [b] + [a];
  }

  lemma {:induction false} PairDisturbed(inputs: seq<Input>, i: nat, j: nat)
    requires |inputs| == 2 && PlainInputs(inputs) && i < 2 && j < 2 && i != j
    requires !KeepsApart(inputs[i].value, Values(inputs)[j])
    ensures var kvs := [Values(inputs)[i], Values(inputs)[j]];
            && Reorders(kvs, Dictionary(inputs, []))
            && ReplaceAll(Script(Holes(inputs)), kvs, {}) != Script(inputs)
  {
    var x, y := Values(inputs)[i], Values(inputs)[j];
    PairReorders(inputs, i, j);
    hide Replace, Pattern, Script, ReplaceAll, KeepsApart, Reorders, Dictionary;
    DisturbedIsChanged(x.1, y);
    assert inputs == [inputs[0], inputs[1]];
    PairArriving(x, y);
    var out := Arriving(inputs, [x, y]);
    BlockIsScriptOfArriving(inputs, [x, y]);
    assert out == [out[0], out[1]];
    if Script(out) == Script(inputs) {
      TwoDocuments(inputs[0], out[0], inputs[1], out[1]);
    }
  }

  /** What two entries arrive as, when the first is replaced first. */
  lemma {:induction false} PairArriving(x: (string, string), y: (string, string))
    requires IsName(x.0) && IsName(y.0) && x.0 != y.0
    ensures ReplaceAll(Pattern(x.0), [x, y], {}) == Replace(x.1, Pattern(y.0), y.1)
    ensures ReplaceAll(Pattern(y.0), [x, y], {}) == y.1
  {
    hide Replace, Pattern;
    assert [x, y][..1] == [x] && [] + [x, y] == [x, y];
    TwoLast([], x, y);
    OwnTurn(y.0, y.1, [x, y]);
  }

  /** A value that is the placeholder of a later input arrives as that input's value. */
  lemma {:induction false} PlaceholderAsValueIsReplaced(a: Input, b: Input)
    requires PlainInputs([a, b]) && a.value == Pattern(b.name)
    ensures ReplaceAll(Script(Holes([a, b])), [(a.name, a.value), (b.name, b.value)], {})
         == Script([a.(value := b.value), b])
  {
    var inputs, kvs := [a, b], [(a.name, a.value), (b.name, b.value)];
    assert PlainInput(inputs[0]) && PlainInput(inputs[1]) && inputs[0].name != inputs[1].name;
    hide Replace, Pattern, Script, ReplaceAll;
    PairArriving(kvs[0], kvs[1]);
    WholeReplace(b.name, b.value);
    BlockIsScriptOfArriving(inputs, kvs);
    assert Arriving(inputs, kvs) == [a.(value := b.value), b];
  }

  /** A value that is the placeholder of an output arrives as the output's path. */
  lemma {:induction false} OutputPlaceholderIsReplaced(x: Input, output: (string, string))
    requires Node([x], [output]) && x.value == Pattern(output.0)
    ensures ReplaceAll(Script(Holes([x])), [(x.name, x.value), output], {}) == Script([x.(value := output.1)])
  {
    var kvs := [(x.name, x.value), output];
    assert Dictionary([x], [output]) == kvs;
    DictionaryKeys([x], [output], kvs);
    assert kvs[0].0 != kvs[1].0;
    hide Replace, Pattern, Script, ReplaceAll;
    PairArriving(kvs[0], kvs[1]);
    WholeReplace(output.0, output.1);
    BlockIsScriptOfArriving([x], kvs);
    assert Arriving([x], kvs) == [x.(value := output.1)];
  }

  // ----- the order of the code: the inputs first, then the outputs -----

  ghost predicate InputsFirst(kvs: Replacements, inputs: seq<Input>, outputs: Replacements) {
    && |kvs| == |inputs| + |outputs|
    && Reorders(kvs[..|inputs|], Values(inputs)) && Reorders(kvs[|inputs|..], outputs)
  }

  lemma {:induction false} InputsFirstReorders(kvs: Replacements, inputs: seq<Input>, outputs: Replacements)
    requires InputsFirst(kvs, inputs, outputs)
    ensures Reorders(kvs, Dictionary(inputs, outputs))
  {
    assert kvs == kvs[..|inputs|] + kvs[|inputs|..];
  }

  /** The path of a temporary file: absolute, and without an opening brace. */
  ghost predicate IsPath(path: string) { path != "" && path[0] == '/' && '{' !in path }

  /** The temporary files are new: no input mentions their paths. */
  ghost predicate FreshPaths(inputs: seq<Input>, outputs: Replacements) {
    && (forall k :: 0 <= k < |outputs| ==> IsPath(outputs[k].1))
    && (forall i, k :: 0 <= i < |inputs| && 0 <= k < |outputs| ==> !Occurs(outputs[k].1, inputs[i].value))
  }

  /** A path in a text survives every replacement around it. */
  lemma {:induction false} PathStays(s: string, path: string, name: string, val: string)
    requires IsName(name) && IsPath(path) && Occurs(path, s)
    ensures Occurs(path, Replace(s, Pattern(name), val))
  {
    hide Replace, Pattern;
    var p :| OccursAt(path, s, p);
    var before, more := s[..p], s[p + |path|..];
    assert s == before + (path + more);
    ReplaceSplit(before, path + more, name, val);
    ReplacePastPlain(path, more, name, val);
    var x, y := Replace(before, Pattern(name), val), Replace(more, Pattern(name), val);
    assert (x + (path + y))[|x|..|x| + |path|] == path;
    assert OccursAt(path, x + (path + y), |x|);
  }

  lemma {:induction false} HitShows(s: string, pat: string, val: string, p: nat)
    requires pat != "" && OccursAt(pat, s, p)
    ensures Occurs(val, Replace(s, pat, val))
  {
    PrefixOccurs(pat, s);
    var out := Replace(s, pat, val);
    if pat <= s {
      assert out[0..|val|] == val && OccursAt(val, out, 0);
    } else {
      SuffixOccurs(pat, s, 1, p);
      HitShows(s[1..], pat, val, p - 1);
      var tail := Replace(s[1..], pat, val);
      var q :| OccursAt(val, tail, q);
      assert out == [s[0]] + tail && out[q + 1..q + 1 + |val|] == tail[q..q + |val|];
      assert OccursAt(val, out, q + 1);
    }
  }

  ghost predicate ShowsAPath(text: string, outputs: Replacements) {
    exists k :: 0 <= k < |outputs| && Occurs(outputs[k].1, text)
  }

  ghost predicate MentionsNone(text: string, outputs: Replacements) {
    forall k :: 0 <= k < |outputs| ==> !Occurs(Pattern(outputs[k].0), text)
  }

  /** Replacing the outputs leaves a text alone, or leaves a path in it. */
  lemma {:induction false} OutputsShow(text: string, outputs: Replacements)
    requires NameKeys(outputs) && forall k :: 0 <= k < |outputs| ==> IsPath(outputs[k].1)
    ensures ShowsAPath(ReplaceAll(text, outputs, {}), outputs)
         || (ReplaceAll(text, outputs, {}) == text && MentionsNone(text, outputs))
  {
    if outputs == [] {
    } else {
      var init, last := outputs[..|outputs| - 1], outputs[|outputs| - 1];
      var before := ReplaceAll(text, init, {});
      OutputsShow(text, init);
      hide Replace, Pattern, Occurs, IsPath;
      if ShowsAPath(before, init) {
        var k :| 0 <= k < |init| && Occurs(init[k].1, before);
        PathStays(before, init[k].1, last.0, last.1);
        assert outputs[k] == init[k];
      } else if Occurs(Pattern(last.0), before) {
        OccurrenceShows(before, last);
        assert outputs[|outputs| - 1] == last;
      } else {
        ReplaceNone(before, Pattern(last.0), last.1);
        assert forall k :: 0 <= k < |init| ==> outputs[k] == init[k];
      }
    }
  }

  lemma {:induction false} OccurrenceShows(text: string, entry: (string, string))
    requires Occurs(Pattern(entry.0), text)
    ensures Occurs(entry.1, Replace(text, Pattern(entry.0), entry.1))
  {
    var p :| OccursAt(Pattern(entry.0), text, p);
    HitShows(text, Pattern(entry.0), entry.1, p);
  }

  lemma {:induction false} ReplaceAllAppend(text: string, a: Replacements, b: Replacements)
    ensures ReplaceAll(text, a + b, {}) == ReplaceAll(ReplaceAll(text, a, {}), b, {})
  {
    hide Replace;
    if b == [] {
      assert a + b == a;
    } else {
      ReplaceAllAppend(text, a, b[..|b| - 1]);
      assert (a + b)[..|a + b| - 1] == a + b[..|b| - 1];
    }
  }

  /** The inputs in an order in which i comes last. */
  lemma {:induction false} OneInputLast(inputs: seq<Input>, i: nat) returns (first: Replacements)
    requires Node(inputs, []) && i < |inputs|
    ensures Reorders(first, Values(inputs)) && NameKeys(first)
    ensures ReplaceAll(Pattern(inputs[i].name), first, {}) == inputs[i].value
  {
    hide Replace, Pattern;
    var values := Values(inputs);
    assert Dictionary(inputs, []) == values;
    first := values[..i] + values[i + 1..] + [values[i]];
    MoveLast(values, i);
    DictionaryKeys(inputs, [], first);
    OwnTurn(inputs[i].name, inputs[i].value, first);
  }

  /** The inputs in an order in which i and k come last. */
  lemma {:induction false} TwoInputsLast(inputs: seq<Input>, i: nat, k: nat) returns (first: Replacements)
    requires Node(inputs, []) && i < |inputs| && k < |inputs| && i != k
    ensures Reorders(first, Values(inputs)) && NameKeys(first)
    ensures ReplaceAll(Pattern(inputs[i].name), first, {})
         == Replace(inputs[i].value, Pattern(inputs[k].name), inputs[k].value)
  {
    hide Replace, Pattern;
    var values := Values(inputs);
    assert Dictionary(inputs, []) == values;
    var others := MoveToEnd(values, i, k);
    first := others + [values[i], values[k]];
    DictionaryKeys(inputs, [], first);
    TwoLast(others, values[i], values[k]);
  }

  /** An order of the inputs after which a value has changed, or still mentions an output:
      its own entry, and the other one if it is an input, come last. */
  lemma {:induction false} ChangedOrMentions(inputs: seq<Input>, outputs: Replacements, i: nat, k: nat)
    returns (first: Replacements)
    requires Node(inputs, outputs) && FreshPaths(inputs, outputs)
    requires i < |inputs| && k < |Dictionary(inputs, outputs)| && i != k
    requires !KeepsApart(inputs[i].value, Dictionary(inputs, outputs)[k])
    ensures Reorders(first, Values(inputs)) && NameKeys(first)
    ensures var text := ReplaceAll(Pattern(inputs[i].name), first, {});
            text == inputs[i].value ==> !MentionsNone(text, outputs)
  {
    hide Replace, Pattern, Occurs, IsPath, ReplaceAll, Reorders;
    var entry := Dictionary(inputs, outputs)[k];
    PlainNode(inputs, outputs);
    if k < |inputs| {
      DisturbedIsChanged(inputs[i].value, entry);
      first := TwoInputsLast(inputs, i, k);
    } else {
      first := OneInputLast(inputs, i);
      assert outputs[k - |inputs|] == entry;
    }
  }

  /** In the code's order too, a value with another entry's placeholder arrives changed. */
  lemma {:induction false} ChangedInCodeOrder(inputs: seq<Input>, outputs: Replacements, i: nat, k: nat)
    returns (kvs: Replacements)
    requires Node(inputs, outputs) && FreshPaths(inputs, outputs)
    requires i < |inputs| && k < |Dictionary(inputs, outputs)| && i != k
    requires !KeepsApart(inputs[i].value, Dictionary(inputs, outputs)[k])
    ensures InputsFirst(kvs, inputs, outputs) && Arriving(inputs, kvs)[i].value != inputs[i].value
  {
    hide Replace, Pattern, Occurs, IsPath, ReplaceAll, KeepsApart, Reorders, MentionsNone;
    var name := inputs[i].name;
    var first := ChangedOrMentions(inputs, outputs, i, k);
    SameLength(first, Values(inputs));
    kvs := first + outputs;
    assert kvs[..|inputs|] == first && kvs[|inputs|..] == outputs;
    SameReorders(outputs);
    OutputsShow(ReplaceAll(Pattern(name), first, {}), outputs);
    ReplaceAllAppend(Pattern(name), first, outputs);
  }

  lemma {:induction false} SameReorders(a: Replacements)
    ensures Reorders(a, a)
  {
  }

  lemma {:induction false} SameLength(a: Replacements, b: Replacements)
    requires Reorders(a, b)
    ensures |a| == |b|
  {
    assert |multiset(a)| == |a| && |multiset(b)| == |b|;
  }

  lemma {:induction false} PlainNode(inputs: seq<Input>, outputs: Replacements)
    requires Node(inputs, outputs)
    ensures Node(inputs, []) && Dictionary(inputs, []) == Values(inputs)
  {
    assert Values(inputs) + [] == Values(inputs);
  }

  /** Exactly when every value arrives unchanged, in every order that the code can take:
      the inputs in any order, then the outputs, whose files are new. */
  lemma {:induction false} ArrivesInCodeOrderIff(inputs: seq<Input>, outputs: Replacements)
    requires Node(inputs, outputs) && FreshPaths(inputs, outputs)
    ensures (forall kvs :: InputsFirst(kvs, inputs, outputs) ==> Arriving(inputs, kvs) == inputs)
       <==> ValuesKeepApart(inputs, outputs)
  {
    if ValuesKeepApart(inputs, outputs) {
      forall kvs | InputsFirst(kvs, inputs, outputs) ensures Arriving(inputs, kvs) == inputs {
        InputsFirstReorders(kvs, inputs, outputs);
        KeptApartArrives(inputs, outputs, kvs);
      }
    } else {
      var i, k := Disturbed(inputs, outputs);
      var kvs := ChangedInCodeOrder(inputs, outputs, i, k);
    }
  }

  // ----- and what the function receives -----

  lemma {:induction false} ReplaceKeepsOut(s: string, pat: string, val: string, c: char)
    requires pat != "" && c !in s && c !in val
    ensures c !in Replace(s, pat, val)
    decreases |s|
  {
    if s == "" {
    } else if pat <= s {
      ReplaceKeepsOut(s[|pat|..], pat, val, c);
    } else {
      ReplaceKeepsOut(s[1..], pat, val, c);
    }
  }

  predicate EndsIn(s: string, c: char) { s != "" && s[|s| - 1] == c }

  lemma {:induction false} ReplaceEndsIn(s: string, pat: string, val: string, c: char)
    requires pat != "" && val != "" && !EndsIn(s, c) && !EndsIn(val, c)
    ensures !EndsIn(Replace(s, pat, val), c)
    decreases |s|
  {
    if s == "" {
    } else if pat <= s {
      ReplaceEndsIn(s[|pat|..], pat, val, c);
    } else {
      ReplaceEndsIn(s[1..], pat, val, c);
    }
  }

  /** A value that reading back does not alter. */
  ghost predicate ReadsBack(value: string) { '\r' !in value && !EndsIn(value, '\n') }

  /** A change of such a value by another one is seen by the function. */
  lemma {:induction false} ChangeIsSeen(value: string, pat: string, val: string)
    requires pat != "" && ReadsBack(value) && ReadsBack(val) && Replace(value, pat, val) != value
    ensures Recovered(Replace(value, pat, val)) != Recovered(value)
  {
    hide Replace, Recovered;
    var out := Replace(value, pat, val);
    ReplaceKeepsOut(value, pat, val, '\r');
    ReplaceLength(value, pat, val);
    RecoveredIff(value);
    RecoveredIff(out);
    RStripIsPrefix(out);
    if val != "" {
      ReplaceEndsIn(value, pat, val, '\n');
    } else if EndsIn(out, '\n') {
      assert |RStrip(out)| < |out| <= |value|;
    }
  }

  /** Exactly when the function receives the values of its inputs, in every order of the
      dictionary.  The values and paths are such that reading back does not alter them. */
  lemma {:induction false} TransportIffKeptApart(inputs: seq<Input>, outputs: Replacements)
    requires Node(inputs, outputs) && GoodInputs(inputs) && FreshDelims(inputs, outputs)
    requires forall k :: 0 <= k < |Dictionary(inputs, outputs)| ==> ReadsBack(Dictionary(inputs, outputs)[k].1)
    ensures (forall kvs :: Reorders(kvs, Dictionary(inputs, outputs)) ==>
               Resolve(PathInputs(inputs), RunScript(ReplaceAll(Script(Holes(inputs)), kvs, {})))
               == RecoveredInputs(inputs))
       <==> ValuesKeepApart(inputs, outputs)
  {
    hide Script, Replace, Pattern, ReplaceAll, KeepsApart, GoodInputs, Resolve, RunScript, Recovered, ReadsBack,
      ValuesKeepApart;
    if ValuesKeepApart(inputs, outputs) {
      forall kvs | Reorders(kvs, Dictionary(inputs, outputs))
        ensures Resolve(PathInputs(inputs), RunScript(ReplaceAll(Script(Holes(inputs)), kvs, {})))
             == RecoveredInputs(inputs)
      {
        PrintedBlockTransportsValues(inputs, outputs, kvs);
      }
    } else {
      var i, k := Disturbed(inputs, outputs);
      var kvs := ChangedArrival(inputs, outputs, i, k);
      var entry := Dictionary(inputs, outputs)[k];
      PrintedBlockTransports(inputs, kvs);
      assert Dictionary(inputs, outputs)[i].1 == inputs[i].value;
      ChangeIsSeen(inputs[i].value, Pattern(entry.0), entry.1);
      assert RecoveredInputs(Arriving(inputs, kvs)).fields[i] != RecoveredInputs(inputs).fields[i];
    }
  }
}
