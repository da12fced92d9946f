/** What each branch of `_handle_node` does to the input, the variables and
    the output, one node at a time. */
module NodeProperties {
  import opened Wrappers
  import opened PyText
  import opened Document
  import opened Interpreter

  /** A tag outside the dispatcher's if/elif chain, `option` included, reads
      nothing, prints nothing and leaves the variables alone. */
  lemma UnknownTagIsNoOp(n: Node, input: seq<string>, vars: Vars)
    requires !KnownTag(n.tag)
    ensures Exec(n, input, vars) == Done(input, vars, [])
  {
  }

  /** A `<text>` node prints exactly one line: its text with the surrounding
      whitespace removed, or the empty line when it has no text. */
  lemma TextPrintsStrippedLine(n: Node, input: seq<string>, vars: Vars)
    requires n.tag == "text"
    ensures var r := Exec(n, input, vars);
      && r.Done? && r.rest == input && r.vars == vars
      && |r.trace| == 1 && r.trace[0].Line?
      && Trimmed(r.trace[0].text, StrBlanks)
      && (n.text.None? ==> r.trace[0].text == "")
      && (n.text.Some? ==> exists a, b :: PaddedWith(n.text.value, a, r.trace[0].text, b, StrBlanks))
  {
  }

  /** An `<input>` node shows its prompt (default "Enter input:") and a space,
      consumes exactly one line, and stores it verbatim under a non-empty
      `var`; without a name the variables stay as they were. */
  lemma InputReadsOneLine(n: Node, input: seq<string>, vars: Vars)
    requires n.tag == "input" && input != []
    ensures var r := Exec(n, input, vars);
      var name := Attr(n, "var", "");
      && r.Done? && r.rest == input[1..]
      && r.trace == [Prompt(Attr(n, "prompt", DefaultPrompt) + " ")]
      && (name != "" ==> r.vars.Keys == vars.Keys + {name} && r.vars[name] == input[0])
      && (forall k :: k in vars && k != name ==> k in r.vars && r.vars[k] == vars[k])
      && (name == "" ==> r.vars == vars)
  {
  }

  /** With no line left, an `<input>` node shows its prompt and the run ends. */
  lemma InputWithoutLineAborts(n: Node, vars: Vars)
    requires n.tag == "input"
    ensures Exec(n, [], vars) == Aborted([Prompt(Attr(n, "prompt", DefaultPrompt) + " ")])
  {
  }

  /** An `<action>` without a usable `script` only prints the error line and
      starts nothing; with one it starts exactly one action with its `args`
      (default empty). Neither reads input nor touches variables. */
  lemma ActionGuard(n: Node, input: seq<string>, vars: Vars)
    requires n.tag == "action"
    ensures var r := Exec(n, input, vars);
      && r.Done? && r.rest == input && r.vars == vars
      && ("script" !in n.attrs || n.attrs["script"] == "" <==> r.trace == [Line(MissingScript)])
      && ("script" in n.attrs && n.attrs["script"] != "" ==>
            r.trace == [Action(n.attrs["script"], Attr(n, "args", ""))])
      && (forall e :: e in r.trace ==> e.Line? || e.Action?)
  {
  }

  /** A `<python>` node with absent or empty text is a complete no-op;
      otherwise it hands its text, untrimmed, to the evaluator together with
      the current variables, and nothing else. */
  lemma PythonGuard(n: Node, input: seq<string>, vars: Vars)
    requires n.tag == "python"
    ensures var r := Exec(n, input, vars);
      && r.Done? && r.rest == input && r.vars == vars
      && (n.text.None? || n.text.value == "" <==> r.trace == [])
      && (n.text.Some? && n.text.value != "" ==> r.trace == [Python(n.text.value, vars)])
  {
  }

  /** A line captured by `<input var="name">` reaches a following `<python>`
      snippet exactly as typed: no coercion, no trimming. */
  lemma CapturedValueReachesPython(inp: Node, py: Node, line: string, rest: seq<string>, vars: Vars)
    requires inp.tag == "input" && Attr(inp, "var", "") != ""
    requires py.tag == "python" && py.text.Some? && py.text.value != ""
    ensures var name := Attr(inp, "var", "");
      var r := ExecSeq([inp, py], [line] + rest, vars);
      && r.Done? && r.rest == rest
      && |r.trace| == 2 && r.trace[1].Python?
      && name in r.trace[1].scope && r.trace[1].scope[name] == line
      && r.vars == r.trace[1].scope
  {
    var name := Attr(inp, "var", "");
    var vars' := vars[name := line];
    var p := Prompt(Attr(inp, "prompt", DefaultPrompt) + " ");
    assert ([line] + rest)[1..] == rest;
    assert Exec(inp, [line] + rest, vars) == Done(rest, vars', [p]);
    assert ExecSeq([py], rest, vars') == Done(rest, vars', [Python(py.text.value, vars')]) by {
      assert [py][1..] == [];
    }
    assert [inp, py][1..] == [py];
  }
}
