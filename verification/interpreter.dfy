/** The tree-walking interpreter of `XMLCApp` (`_handle_node` with its
    helpers) as a pure function. Console input is a script of lines,
    console output is a trace of events, and the variable store is a map. */
module Interpreter {
  import opened Wrappers
  import opened PyText
  import opened Document

  /** `self.variables`: variable name to the raw line captured for it. */
  type Vars = map<string, string>

  /** What the interpreter shows or starts, in order. */
  datatype Event =
    | Line(text: string)        // one `print(text)`
    | Prompt(text: string)      // the prompt `input(text)` writes before reading
    | Action(script: string, args: string)
                                // an `<action>` that passed its guard: path lookup,
                                // `shlex.split` and the subprocess, abstracted
    | Python(code: string, scope: Vars)
                                // an `<python>` snippet handed to `exec`, with the
                                // variable store it can see through `self`

  /** The result of running a node or a run of siblings: either it finished,
      leaving the unread input and the new variables, or it asked for input
      when none was left (`input()` raising an uncaught `EOFError`, which
      ends the program). Both carry what was emitted. */
  datatype Outcome =
    | Done(rest: seq<string>, vars: Vars, trace: seq<Event>)
    | Aborted(trace: seq<Event>)
  {
    /** The same outcome with `prefix` emitted first. */
    function After(prefix: seq<Event>): (r: Outcome) {
      match this
      case Done(rest, vars, trace) => Done(rest, vars, prefix + trace)
      case Aborted(trace) => Aborted(prefix + trace)
    }
  }

  const DefaultPrompt := "Enter input:"
  const DefaultTitle := "Menu"
  const ChoicePrompt := "Choose an option: "
  const InvalidSelection := "Invalid selection."
  const MissingScript := "[ERROR] <action> tag missing 'script' attribute."

  /** The tags `_handle_node` reacts to; every other tag is passed over. */
  predicate KnownTag(tag: string) {
    tag in {"app", "menu", "text", "input", "action", "python"}
  }

  /** What a `<text>` node prints. */
  function TextContent(text: Option<string>): (r: string)
    ensures Trimmed(r, StrBlanks)
    ensures text.Some? ==> exists a, b :: PaddedWith(text.value, a, r, b, StrBlanks)
    ensures text.None? ==> r == ""
  {
    match text
    case Some(t) => Strip(t)
    case None => ""
  }

  /** The line printed above a menu's options. */
  function Banner(title: string): (r: string) {
    "\n=== " + title + " ==="
  }

  /** The label of the option at 1-based position `pos`. */
  function OptionLabel(opt: Node, pos: nat): (r: string) {
    Attr(opt, "label", "Option " + NatToString(pos))
  }

  function OptionLine(opt: Node, pos: nat): (r: string) {
    NatToString(pos) + ". " + OptionLabel(opt, pos)
  }

  /** The listing of `opts`, numbered from `first`: line k is option k's
      number and label, and nothing else is listed. */
  function Listing(opts: seq<Node>, first: nat): (r: seq<Event>)
    ensures |r| == |opts|
    ensures forall k :: 0 <= k < |opts| ==> r[k] == Line(OptionLine(opts[k], first + k))
  {
    if opts == [] then [] else [Line(OptionLine(opts[0], first))] + Listing(opts[1..], first + 1)
  }

  /** Python's `xs[k]` on a list of length `n`: the position it reads, or
      `None` for the `IndexError`. Negative `k` counts from the end. */
  function PyIndex(n: nat, k: int): (r: Option<nat>)
    ensures r.Some? <==> -(n as int) <= k < n
    ensures r.Some? ==> r.value < n && (r.value == k || r.value == k + n)
  {
    if 0 <= k < n then Some(k) else if -(n as int) <= k < 0 then Some(n + k) else None
  }

  /** `options[int(choice) - 1]` for a menu of `n` options: the 0-based
      option chosen, or `None` where Python raises `ValueError` or
      `IndexError`. */
  function Select(n: nat, choice: string): (r: Option<nat>)
    ensures r.Some? ==> r.value < n && ParseInt(choice).Some?
    ensures n == 0 ==> r.None?
  {
    match ParseInt(choice)
    case None => None
    case Some(c) => PyIndex(n, c - 1)
  }

  lemma SelectOfParsed(count: nat, choice: string, c: int)
    requires ParseInt(choice) == Some(c)
    ensures Select(count, choice) == PyIndex(count, c - 1)
  {
  }

  /** `rest` is what remains of `input` once lines are read from its front. */
  predicate SuffixOf(rest: seq<string>, input: seq<string>) {
    |rest| <= |input| && rest == input[|input| - |rest|..]
  }

  /** What every run promises: a finished run read its lines from the front
      of the input and lost no variable; an aborted run stopped on a prompt. */
  predicate WellFormed(input: seq<string>, vars: Vars, r: Outcome) {
    match r
    case Done(rest, vars', _) => SuffixOf(rest, input) && vars.Keys <= vars'.Keys
    case Aborted(t) => t != [] && t[|t| - 1].Prompt?
  }

  lemma AfterWellFormed(input: seq<string>, vars: Vars, r: Outcome, prefix: seq<Event>)
    requires WellFormed(input, vars, r)
    ensures WellFormed(input, vars, r.After(prefix))
  {
    if r.Aborted? {
      assert (prefix + r.trace)[|prefix + r.trace| - 1] == r.trace[|r.trace| - 1];
    }
  }

  lemma AfterKeepsPrefix(r: Outcome, prefix: seq<Event>)
    ensures |r.After(prefix).trace| >= |prefix| && r.After(prefix).trace[..|prefix|] == prefix
  {
    assert (prefix + r.trace)[..|prefix|] == prefix;
  }

  /** `_handle_node`. */
  function Exec(n: Node, input: seq<string>, vars: Vars): (r: Outcome)
    ensures WellFormed(input, vars, r)
    decreases n, 1
  {
    if n.tag == "app" then ExecSeq(n.children, input, vars)
    else if n.tag == "menu" then ExecMenu(n, input, vars)
    else if n.tag == "text" then Done(input, vars, [Line(TextContent(n.text))])
    else if n.tag == "input" then ExecInput(n, input, vars)
    else if n.tag == "action" then Done(input, vars, ActionEvents(n))
    else if n.tag == "python" then Done(input, vars, PythonEvents(n, vars))
    else Done(input, vars, [])
  }

  /** The `for child in ...: self._handle_node(child)` loop: siblings run in
      document order, each starting from where the previous one left the
      input and the variables; the first abort ends the loop. */
  function ExecSeq(ns: seq<Node>, input: seq<string>, vars: Vars): (r: Outcome)
    ensures WellFormed(input, vars, r)
    decreases ns
  {
    if ns == [] then Done(input, vars, [])
    else
      match Exec(ns[0], input, vars)
      case Aborted(t) => Aborted(t)
      case Done(rest, vars', t) =>
        var tail := ExecSeq(ns[1..], rest, vars');
        AfterWellFormed(rest, vars', tail, t);
        tail.After(t)
  }

  /** The `input` branch of `_handle_node`: one prompt, one line read, and
      at most the named variable changes, to exactly that line. */
  function ExecInput(n: Node, input: seq<string>, vars: Vars): (r: Outcome)
    ensures r.Done? <==> input != []
    ensures |r.trace| == 1 && r.trace[0].Prompt?
    ensures r.Done? ==> r.rest == input[1..] && vars.Keys <= r.vars.Keys
    ensures r.Done? ==> forall k :: k in r.vars ==> (k in vars && r.vars[k] == vars[k]) || r.vars[k] == input[0]
  {
    var prompt := [Prompt(Attr(n, "prompt", DefaultPrompt) + " ")];
    if input == [] then Aborted(prompt)
    else
      var name := Attr(n, "var", "");
      Done(input[1..], if name != "" then vars[name := input[0]] else vars, prompt)
  }

  /** The menu header: banner, then the numbered options, then the prompt. */
  function MenuHeader(n: Node): (r: seq<Event>) {
    [Line(Banner(Attr(n, "title", DefaultTitle)))] + Listing(Options(n.children), 1) + [Prompt(ChoicePrompt)]
  }

  /** `_handle_menu`: whatever happens, the header comes first. */
  function ExecMenu(n: Node, input: seq<string>, vars: Vars): (r: Outcome)
    ensures WellFormed(input, vars, r)
    ensures |r.trace| >= |MenuHeader(n)| && r.trace[..|MenuHeader(n)|] == MenuHeader(n)
    decreases n, 0
  {
    var opts := Options(n.children);
    var header := MenuHeader(n);
    if input == [] then Aborted(header)
    else
      match Select(|opts|, input[0])
      case None =>
        var invalid := Done(input[1..], vars, [Line(InvalidSelection)]);
        AfterKeepsPrefix(invalid, header);
        invalid.After(header)
      case Some(i) =>
        assert opts[i] in n.children;
        var chosen := ExecSeq(opts[i].children, input[1..], vars);
        AfterWellFormed(input[1..], vars, chosen, header);
        AfterKeepsPrefix(chosen, header);
        chosen.After(header)
  }

  /** The guard of `_handle_action`: a missing or empty `script` is reported
      and nothing is started; otherwise exactly that script is started. */
  function ActionEvents(n: Node): (r: seq<Event>)
    ensures |r| == 1
    ensures r[0].Line? <==> "script" !in n.attrs || n.attrs["script"] == ""
    ensures !r[0].Line? ==> r[0].Action? && r[0].script == n.attrs["script"]
    ensures r[0].Line? ==> r[0] == Line(MissingScript)
    ensures r[0].Action? ==> r[0].args == Attr(n, "args", "")
  {
    var script := Attr(n, "script", "");
    if script == "" then [Line(MissingScript)] else [Action(script, Attr(n, "args", ""))]
  }

  /** The guard of `_handle_python`: absent or empty code does nothing;
      otherwise the code is handed over once, as written. */
  function PythonEvents(n: Node, vars: Vars): (r: seq<Event>)
    ensures r == [] <==> n.text.None? || n.text.value == ""
    ensures r != [] ==> r == [Python(n.text.value, vars)]
  {
    match n.text
    case Some(code) => if code != "" then [Python(code, vars)] else []
    case None => []
  }

  /** `XMLCApp.run`: interpret the root with an empty variable store. */
  function Run(root: Node, input: seq<string>): (r: Outcome)
    ensures r.Done? ==> SuffixOf(r.rest, input)
    ensures r.Aborted? ==> r.trace != [] && r.trace[|r.trace| - 1].Prompt?
  {
    Exec(root, input, map[])
  }
}
