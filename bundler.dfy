/**
 * The bundler of core/bundler.ts: it reads an HTML document, resolves every
 * `tmpl` element against the fragment file its `src` names, and writes the
 * document out only when every element resolved.
 *
 * The collaborators the bundler calls are inputs here: the file system is a
 * map from path to content (a read fails exactly when the path is absent),
 * the HTML parser gives the `tmpl` elements of a document in document order
 * (or nothing, when it returns no document), and `eval` is an arbitrary
 * function from the expression text to a value or a thrown message.
 */
module Bundler {
  import opened Wrappers
  import opened JsString
  import opened StatusCodes
  import opened Seqs

  /** A child element of a `tmpl` element, as the DOM reports it. */
  datatype Child = Child(tagName: string, innerHTML: string)

  /**
   * A `tmpl` element: its `src` attribute if present, its child elements in
   * order, and the text the DOM gives for its index in the document's text
   * (used only in the missing-`src` message).
   */
  datatype TmplElement = TmplElement(src: Option<string>, children: seq<Child>, position: string)

  /** One variable bound for a fragment: the child's tag name and inner HTML. */
  datatype Argument = Argument(name: string, value: string)

  /** The outcome of resolving one element (`TemplateInfo | TemplateError`). */
  datatype Template = TemplateInfo(html: string) | TemplateError(message: string)

  /** What `eval` does with an expression: produce a string, or throw with a message. */
  datatype EvalOutcome = Value(s: string) | Thrown(message: string)

  /** The collaborators of one bundling run. */
  datatype Env = Env(
    files: map<string, string>,
    parse: string -> Option<seq<TmplElement>>,
    evaluate: string -> EvalOutcome)

  /**
   * A `tmpl` element's place in the document: still the element itself, or
   * the nodes parsed from the HTML its fragment produced (kept as that HTML).
   */
  datatype Slot = Unresolved(element: TmplElement) | Resolved(html: string)

  /** A file written by the bundler: its path and the document tree serialized into it. */
  datatype Output = Output(path: string, tree: seq<Slot>)

  // ---------------------------------------------------------------------------
  // cleanupPath

  /** `cleanupPath`: every `%20` becomes a space. */
  function CleanupPath(path: string): string
  {
    ReplaceAll(path, "%20", " ")
  }

  /** The first character of a cleaned path is a space for a leading `%20`, otherwise the first character of the input. */
  lemma CleanupPathHead(s: string)
    ensures |CleanupPath(s)| > 0 <==> |s| > 0
    ensures |s| > 0 ==> CleanupPath(s)[0] == if StartsWith(s, "%20") then ' ' else s[0]
  {
  }

  /** A cleaned path can start with `20` only if its input did. */
  lemma CleanupPathNoLeading20(s: string)
    requires StartsWith(CleanupPath(s), "20")
    ensures StartsWith(s, "20")
  {
    CleanupPathHead(s);
    assert !StartsWith(s, "%20");
    assert CleanupPath(s) == [s[0]] + CleanupPath(s[1..]);
    CleanupPathHead(s[1..]);
    assert CleanupPath(s[1..])[0] == CleanupPath(s)[1];
  }

  lemma OccurrencesCons(c: char, u: string, pat: string)
    requires |pat| > 0
    ensures Occurrences([c] + u, pat) == (if StartsWith([c] + u, pat) then 1 else 0) + Occurrences(u, pat)
  {
    assert ([c] + u)[1..] == u;
  }

  /** A character in front of a cleaned rest starts a `%20` only when the input itself started with one. */
  lemma ConsStartsPct20(s: string)
    requires |s| > 0
    ensures StartsWith([s[0]] + CleanupPath(s[1..]), "%20") ==> StartsWith(s, "%20")
  {
    var u := CleanupPath(s[1..]);
    if StartsWith([s[0]] + u, "%20") {
      assert StartsWith(u, "20") by {
        assert ([s[0]] + u)[1..3] == u[..2];
      }
      CleanupPathNoLeading20(s[1..]);
      assert s[..3] == [s[0]] + s[1..][..2];
    }
  }

  /** A path with no `%20` is left unchanged. */
  lemma CleanupPathUnchanged(s: string)
    requires Occurrences(s, "%20") == 0
    ensures CleanupPath(s) == s
  {
    ReplaceAllNoMatch(s, "%20", " ");
  }

  /** A cleaned path contains no `%20`. */
  lemma {:induction false} CleanupPathClean(s: string)
    ensures Occurrences(CleanupPath(s), "%20") == 0
  {
    if |s| > 0 {
      if StartsWith(s, "%20") {
        CleanupPathClean(s[3..]);
        var u := CleanupPath(s[3..]);
        assert CleanupPath(s) == " " + u;
        OccurrencesCons(' ', u, "%20");
      } else {
        CleanupPathClean(s[1..]);
        var u := CleanupPath(s[1..]);
        assert CleanupPath(s) == [s[0]] + u;
        OccurrencesCons(s[0], u, "%20");
        ConsStartsPct20(s);
      }
    }
  }

  /** Cleaning a path twice is cleaning it once. */
  lemma CleanupPathIdempotent(s: string)
    ensures CleanupPath(CleanupPath(s)) == CleanupPath(s)
  {
    CleanupPathClean(s);
    CleanupPathUnchanged(CleanupPath(s));
  }

  /** Each `%20` in the input shortens the path by exactly two characters. */
  lemma {:induction false} CleanupPathLength(s: string)
    ensures |CleanupPath(s)| == |s| - 2 * Occurrences(s, "%20")
  {
    if |s| > 0 {
      if StartsWith(s, "%20") {
        CleanupPathLength(s[3..]);
        assert !StartsWith(s[1..], "%20") by { assert s[1..][0] == s[1] == '2'; }
        assert !StartsWith(s[2..], "%20") by { assert s[2..][0] == s[2] == '0'; }
        assert s[1..][1..] == s[2..];
        assert s[2..][1..] == s[3..];
        assert Occurrences(s[1..], "%20") == Occurrences(s[2..], "%20");
        assert Occurrences(s[2..], "%20") == Occurrences(s[3..], "%20");
      } else {
        CleanupPathLength(s[1..]);
        assert Occurrences(s, "%20") == Occurrences(s[1..], "%20");
      }
    }
  }

  // ---------------------------------------------------------------------------
  // parseArguments and argumentVariableDeclarations

  /** The argument a child element stands for. */
  function ArgumentsOf(children: seq<Child>): seq<Argument>
  {
    seq(|children|, i requires 0 <= i < |children| => Argument(children[i].tagName, children[i].innerHTML))
  }

  /** `parseArguments`: one argument per child element, in child order. */
  method ParseArguments(children: seq<Child>) returns (result: seq<Argument>)
    ensures |result| == |children|
    ensures forall i :: 0 <= i < |children| ==>
              result[i].name == children[i].tagName && result[i].value == children[i].innerHTML
    ensures result == ArgumentsOf(children)
  {
    result := [];
    for k := 0 to |children|
      invariant |result| == k
      invariant forall i :: 0 <= i < k ==> result[i] == Argument(children[i].tagName, children[i].innerHTML)
    {
      result := result + [Argument(children[k].tagName, children[k].innerHTML)];
    }
  }

  /** The declaration line of one argument: ``const name = `value`;``. */
  function Declaration(a: Argument): string
  {
    "const " + a.name + " = `" + a.value + "`;"
  }

  function Declarations(args: seq<Argument>): seq<string>
  {
    seq(|args|, i requires 0 <= i < |args| => Declaration(args[i]))
  }

  /** `argumentVariableDeclarations`: the declaration lines joined by `\n`. */
  function ArgumentVariableDeclarations(args: seq<Argument>): (r: string)
    ensures args == [] <==> r == ""
    ensures args != [] ==> StartsWith(r, Declaration(args[0])) && r[|r| - 1] == ';'
  {
    if args == [] then "" else
      JoinEnds(Declarations(args), "\n");
      Join(Declarations(args), "\n")
  }

  /** A further argument adds one `\n` and its declaration at the end, so lines are in argument order. */
  lemma DeclarationsSnoc(args: seq<Argument>, a: Argument)
    requires args != []
    ensures ArgumentVariableDeclarations(args + [a]) == ArgumentVariableDeclarations(args) + "\n" + Declaration(a)
  {
    assert Declarations(args + [a]) == Declarations(args) + [Declaration(a)];
    JoinSnoc(Declarations(args), Declaration(a), "\n");
  }

  /** The declarations of a single argument are its line alone. */
  lemma DeclarationsSingle(a: Argument)
    ensures ArgumentVariableDeclarations([a]) == Declaration(a)
  {
  }

  /**
   * When no name or value holds a line break, the declarations of `n` arguments
   * hold exactly `n - 1` line breaks: single separators and no trailing newline.
   */
  lemma DeclarationsLines(args: seq<Argument>)
    requires args != []
    requires forall k :: 0 <= k < |args| ==> Count(args[k].name, '\n') == 0 && Count(args[k].value, '\n') == 0
    ensures Count(ArgumentVariableDeclarations(args), '\n') == |args| - 1
  {
    var parts := Declarations(args);
    forall k | 0 <= k < |parts|
      ensures Count(parts[k], '\n') == 0
    {
      var a := args[k];
      CountAbsent("const ", '\n');
      CountAbsent(" = `", '\n');
      CountAbsent("`;", '\n');
      CountAppend("const ", a.name, '\n');
      CountAppend("const " + a.name, " = `", '\n');
      CountAppend("const " + a.name + " = `", a.value, '\n');
      CountAppend("const " + a.name + " = `" + a.value, "`;", '\n');
    }
    JoinCount(parts, '\n');
  }

  /** The expression handed to `eval`: the declarations, a newline, and the fragment as a template literal. */
  function HtmlExpression(declarations: string, content: string): string
  {
    declarations + "\n`" + content + "`;"
  }

  /** The expression splits back into the declarations, a newline and backquote, the fragment, and a closing backquote and semicolon. */
  lemma HtmlExpressionParts(declarations: string, content: string)
    ensures var r := HtmlExpression(declarations, content);
      && |r| == |declarations| + |content| + 4
      && r[..|declarations|] == declarations
      && r[|declarations|..|declarations| + 2] == "\n`"
      && r[|declarations| + 2..|r| - 2] == content
      && r[|r| - 2..] == "`;"
  {
  }

  // ---------------------------------------------------------------------------
  // loadTemplate

  /** The message for an element without `src`. */
  function MissingSrcMessage(element: TmplElement): string
  {
    "Template element at index " + element.position + " is missing a 'src' attribute!"
  }

  /** The message for a fragment file that cannot be read. */
  function NotFoundMessage(templateFile: string): string
  {
    "Could not find template import src: " + templateFile
  }

  /** `src` with every backslash turned into a slash. */
  function NormalizeSeparators(src: string): string
  {
    ReplaceAll(src, "\\", "/")
  }

  /** The path of the fragment file an element's (normalized) `src` names. */
  function TemplatePath(sourceFileDir: string, src: string): string
  {
    CleanupPath(sourceFileDir + src)
  }

  /** The expression evaluated for an element whose fragment file holds `content`. */
  function TemplateExpression(element: TmplElement, content: string): string
  {
    HtmlExpression(ArgumentVariableDeclarations(ArgumentsOf(element.children)), content)
  }

  /** `loadTemplate`: resolve one element against its fragment file. */
  function LoadTemplate(element: TmplElement, sourceFileDir: string, env: Env): Template
  {
    match element.src
    case None => TemplateError(MissingSrcMessage(element))
    case Some(raw) =>
      var templateFile := TemplatePath(sourceFileDir, NormalizeSeparators(raw));
      if templateFile !in env.files then TemplateError(NotFoundMessage(templateFile))
      else
        match env.evaluate(TemplateExpression(element, env.files[templateFile]))
        case Value(html) => TemplateInfo(html)
        case Thrown(message) => TemplateError(message)
  }

  /**
   * Normalizing separators keeps every character except that each backslash
   * becomes a slash; the template path then has no `%20` left, and equals the
   * plain concatenation when there was nothing to rewrite.
   */
  lemma TemplatePathSpec(sourceFileDir: string, raw: string)
    ensures |NormalizeSeparators(raw)| == |raw|
    ensures forall i :: 0 <= i < |raw| ==>
              NormalizeSeparators(raw)[i] == if raw[i] == '\\' then '/' else raw[i]
    ensures Occurrences(TemplatePath(sourceFileDir, NormalizeSeparators(raw)), "%20") == 0
    ensures (forall i :: 0 <= i < |raw| ==> raw[i] != '\\') && Occurrences(sourceFileDir + raw, "%20") == 0 ==>
              TemplatePath(sourceFileDir, NormalizeSeparators(raw)) == sourceFileDir + raw
  {
    ReplaceCharAt(raw, '\\', '/');
    CleanupPathClean(sourceFileDir + NormalizeSeparators(raw));
    if (forall i :: 0 <= i < |raw| ==> raw[i] != '\\') && Occurrences(sourceFileDir + raw, "%20") == 0 {
      assert NormalizeSeparators(raw) == raw;
      CleanupPathUnchanged(sourceFileDir + raw);
    }
  }

  /** An element without `src` fails with the missing-`src` message whatever the files and `eval` are: nothing is read or evaluated. */
  lemma LoadTemplateMissingSrc(element: TmplElement, sourceFileDir: string, env1: Env, env2: Env)
    requires element.src.None?
    ensures LoadTemplate(element, sourceFileDir, env1) == TemplateError(MissingSrcMessage(element))
    ensures LoadTemplate(element, sourceFileDir, env1) == LoadTemplate(element, sourceFileDir, env2)
  {
  }

  /**
   * Only the template file is read and only the template expression is
   * evaluated: two environments that agree on those give the same outcome;
   * an unreadable template file fails without evaluating anything.
   */
  lemma LoadTemplateReadsOnlyTemplate(element: TmplElement, sourceFileDir: string, env1: Env, env2: Env)
    requires element.src.Some?
    requires var p := TemplatePath(sourceFileDir, NormalizeSeparators(element.src.value));
             (p in env1.files <==> p in env2.files) &&
             (p in env1.files ==>
                (env1.files[p] == env2.files[p] &&
                 env1.evaluate(TemplateExpression(element, env1.files[p])) ==
                 env2.evaluate(TemplateExpression(element, env1.files[p]))))
    ensures LoadTemplate(element, sourceFileDir, env1) == LoadTemplate(element, sourceFileDir, env2)
  {
  }

  /** The expression built for an element with one child whose `tagName` is `name` and whose inner HTML is `World`, over a fragment `Hello, ${name}!`. */
  lemma GreetingExpression(src: Option<string>, position: string)
    ensures TemplateExpression(TmplElement(src, [Child("name", "World")], position), "Hello, ${name}!")
            == "const name = `World`;\n`Hello, ${name}!`;"
  {
    var children := [Child("name", "World")];
    var args := ArgumentsOf(children);
    assert args == [Argument("name", "World")];
    var line := Declaration(args[0]);
    assert line == "const name = `World`;";
    assert Declarations(args) == [line];
    assert ArgumentVariableDeclarations(args) == line;
    assert TemplateExpression(TmplElement(src, children, position), "Hello, ${name}!")
           == HtmlExpression(line, "Hello, ${name}!");
  }

  // ---------------------------------------------------------------------------
  // Bundle

  /** The document being bundled; `replaceWith` changes one element's slot. */
  class Document {
    var slots: seq<Slot>

    constructor (elements: seq<TmplElement>)
      ensures |slots| == |elements|
      ensures forall i :: 0 <= i < |elements| ==> slots[i] == Unresolved(elements[i])
    {
      slots := seq(|elements|, i requires 0 <= i < |elements| => Unresolved(elements[i]));
    }

    /** `tmpl.replaceWith(...nodes)`: the element gives way to the nodes parsed from `html`. */
    method ReplaceWith(i: nat, html: string)
      requires i < |slots|
      modifies this
      ensures slots == old(slots)[i := Resolved(html)]
    {
      slots := slots[i := Resolved(html)];
    }
  }

  /** The path a bundling run reads its document from. */
  function SourcePath(sourceFile: string, sourceFileDir: string): string
  {
    CleanupPath(sourceFileDir + sourceFile)
  }

  /** The `tmpl` elements of the source document, or nothing when it cannot be read or parsed. */
  function SourceElements(sourceFile: string, sourceFileDir: string, env: Env): Option<seq<TmplElement>>
  {
    var path := SourcePath(sourceFile, sourceFileDir);
    if path in env.files then env.parse(env.files[path]) else None
  }

  /** What each element resolves to. */
  function Outcomes(elements: seq<TmplElement>, sourceFileDir: string, env: Env): seq<Template>
  {
    seq(|elements|, i requires 0 <= i < |elements| => LoadTemplate(elements[i], sourceFileDir, env))
  }

  /** The messages of the failed outcomes, in order. */
  function ErrorMessages(outcomes: seq<Template>): (r: seq<string>)
    ensures |r| <= |outcomes|
  {
    if outcomes == [] then []
    else
      var last := outcomes[|outcomes| - 1];
      ErrorMessages(outcomes[..|outcomes| - 1]) + (if last.TemplateError? then [last.message] else [])
  }

  /** No message is logged exactly when every element resolved. */
  lemma {:induction false} ErrorMessagesEmpty(outcomes: seq<Template>)
    ensures ErrorMessages(outcomes) == [] <==> forall i :: 0 <= i < |outcomes| ==> outcomes[i].TemplateInfo?
  {
    if outcomes != [] {
      var n := |outcomes| - 1;
      ErrorMessagesEmpty(outcomes[..n]);
      forall i | 0 <= i < n
        ensures outcomes[..n][i] == outcomes[i]
      {
      }
    }
  }

  /** A bundling run fails when the source cannot be read or parsed, or some element's error is logged. */
  predicate BundleFails(sourceFile: string, sourceFileDir: string, env: Env)
  {
    match SourceElements(sourceFile, sourceFileDir, env)
    case None => true
    case Some(elements) => ErrorMessages(Outcomes(elements, sourceFileDir, env)) != []
  }

  /**
   * `Bundle`: every element is attempted; an element is replaced exactly when
   * it resolved; the run fails exactly when the source could not be read or
   * parsed or some element failed, and only a run that did not fail writes
   * its document to the target path. `tree` is the in-memory document at the
   * end (kept even when nothing is written) and `errors` the messages logged.
   */
  method Bundle(sourceFile: string, targetFile: string, sourceFileDir: string, targetFileDir: string, env: Env)
    returns (status: StatusCode, tree: seq<Slot>, errors: seq<string>, written: Option<Output>)
    ensures status != Pending
    ensures status == Failure <==> BundleFails(sourceFile, sourceFileDir, env)
    ensures status == Failure ==> written == None
    ensures status == Success ==> written == Some(Output(CleanupPath(targetFileDir + targetFile), tree))
    ensures SourceElements(sourceFile, sourceFileDir, env).None? ==> tree == [] && errors == []
    ensures SourceElements(sourceFile, sourceFileDir, env).Some? ==>
              var elements := SourceElements(sourceFile, sourceFileDir, env).value;
              var outcomes := Outcomes(elements, sourceFileDir, env);
              && |tree| == |elements|
              && (forall i :: 0 <= i < |elements| ==>
                    tree[i] == if outcomes[i].TemplateInfo? then Resolved(outcomes[i].html) else Unresolved(elements[i]))
              && errors == ErrorMessages(outcomes)
  {
    var sourceFilePath := CleanupPath(sourceFileDir + sourceFile);
    var targetFilePath := CleanupPath(targetFileDir + targetFile);
    tree, errors, written := [], [], None;
    if sourceFilePath !in env.files {
      return Failure, tree, errors, written;
    }
    var parsed := env.parse(env.files[sourceFilePath]);
    if parsed.None? {
      return Failure, tree, errors, written;
    }
    var elements := parsed.value;
    var document := new Document(elements);
    var failed;
    var outcomes := Outcomes(elements, sourceFileDir, env);
    failed, errors := ResolveElements(document, elements, outcomes);
    tree := document.slots;
    if failed {
      return Failure, tree, errors, written;
    }
    written := Some(Output(targetFilePath, tree));
    status := Success;
  }

  /**
   * The loop of `Bundle`: each element, in order, is either replaced by the
   * HTML its template resolved to or left in place with its message logged.
   */
  method ResolveElements(document: Document, elements: seq<TmplElement>, outcomes: seq<Template>)
    returns (failed: bool, errors: seq<string>)
    requires |document.slots| == |elements| == |outcomes|
    requires forall j :: 0 <= j < |elements| ==> document.slots[j] == Unresolved(elements[j])
    modifies document
    ensures |document.slots| == |elements|
    ensures forall j :: 0 <= j < |elements| ==>
              document.slots[j] == if outcomes[j].TemplateInfo? then Resolved(outcomes[j].html) else Unresolved(elements[j])
    ensures failed <==> errors != []
    ensures errors == ErrorMessages(outcomes)
  {
    failed, errors := false, [];
    for i := 0 to |elements|
      invariant |document.slots| == |elements|
      invariant forall j :: 0 <= j < i ==>
                  document.slots[j] == if outcomes[j].TemplateInfo? then Resolved(outcomes[j].html) else Unresolved(elements[j])
      invariant forall j :: i <= j < |elements| ==> document.slots[j] == Unresolved(elements[j])
      invariant failed <==> errors != []
      invariant errors == ErrorMessages(outcomes[..i])
    {
      var template := outcomes[i];
      assert outcomes[..i + 1][..i] == outcomes[..i];
      if template.TemplateInfo? {
        document.ReplaceWith(i, template.html);
      } else {
        errors := errors + [template.message];
        failed := true;
      }
    }
    assert outcomes[..|elements|] == outcomes;
  }

  /** A run fails exactly when the source cannot be read or parsed, or some element of it does not resolve. */
  lemma BundleFailsElement(sourceFile: string, sourceFileDir: string, env: Env)
    ensures BundleFails(sourceFile, sourceFileDir, env) <==>
              match SourceElements(sourceFile, sourceFileDir, env)
              case None => true
              case Some(elements) =>
                exists i :: 0 <= i < |elements| && LoadTemplate(elements[i], sourceFileDir, env).TemplateError?
  {
    match SourceElements(sourceFile, sourceFileDir, env)
    case None =>
    case Some(elements) =>
      var outcomes := Outcomes(elements, sourceFileDir, env);
      ErrorMessagesEmpty(outcomes);
      if !BundleFails(sourceFile, sourceFileDir, env) {
        forall i | 0 <= i < |elements|
          ensures LoadTemplate(elements[i], sourceFileDir, env).TemplateInfo?
        {
          assert outcomes[i].TemplateInfo?;
        }
      }
  }

  /**
   * One element's own reasons to fail: it has no `src`, its template file
   * cannot be read, or `eval` throws on the expression built from it.
   */
  predicate ElementFails(element: TmplElement, sourceFileDir: string, env: Env)
  {
    match element.src
    case None => true
    case Some(raw) =>
      var p := TemplatePath(sourceFileDir, NormalizeSeparators(raw));
      p !in env.files || env.evaluate(TemplateExpression(element, env.files[p])).Thrown?
  }

  /** An element's template is an error exactly when the element has one of its own reasons to fail. */
  lemma LoadTemplateFails(element: TmplElement, sourceFileDir: string, env: Env)
    ensures LoadTemplate(element, sourceFileDir, env).TemplateError? <==> ElementFails(element, sourceFileDir, env)
  {
  }

  /**
   * Why a bundle fails: the source file cannot be read, the parser returns no
   * document, or some element lacks `src`, names an unreadable template file or
   * makes `eval` throw. Nothing else makes it fail.
   */
  lemma BundleFailsCauses(sourceFile: string, sourceFileDir: string, env: Env)
    ensures var path := SourcePath(sourceFile, sourceFileDir);
      BundleFails(sourceFile, sourceFileDir, env) <==>
        || path !in env.files
        || env.parse(env.files[path]).None?
        || exists i :: 0 <= i < |env.parse(env.files[path]).value| &&
                       ElementFails(env.parse(env.files[path]).value[i], sourceFileDir, env)
  {
    BundleFailsElement(sourceFile, sourceFileDir, env);
    match SourceElements(sourceFile, sourceFileDir, env)
    case None =>
    case Some(elements) =>
      forall i | 0 <= i < |elements|
        ensures LoadTemplate(elements[i], sourceFileDir, env).TemplateError? <==> ElementFails(elements[i], sourceFileDir, env)
      {
        LoadTemplateFails(elements[i], sourceFileDir, env);
      }
  }

  /**
   * Failure isolation: of two elements, one without `src` and one that
   * resolves, the run fails, only the first element's message is logged, the
   * first outcome is an error and the second is the good element's HTML.
   * With `Bundle`'s contract this puts the first element unchanged and the
   * second one resolved to that HTML in the final tree.
   */
  lemma FailureIsolation(sourceFile: string, sourceFileDir: string, env: Env, bad: TmplElement, good: TmplElement)
    requires SourceElements(sourceFile, sourceFileDir, env) == Some([bad, good])
    requires bad.src.None?
    requires LoadTemplate(good, sourceFileDir, env).TemplateInfo?
    ensures BundleFails(sourceFile, sourceFileDir, env)
    ensures ErrorMessages(Outcomes([bad, good], sourceFileDir, env)) == [MissingSrcMessage(bad)]
    ensures var outcomes := Outcomes([bad, good], sourceFileDir, env);
      outcomes[0].TemplateError? && outcomes[1] == TemplateInfo(LoadTemplate(good, sourceFileDir, env).html)
  {
    var outcomes := Outcomes([bad, good], sourceFileDir, env);
    assert outcomes[0] == TemplateError(MissingSrcMessage(bad));
    assert outcomes[..1] == [outcomes[0]];
    assert [bad, good][0] == bad;
  }
}
