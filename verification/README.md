# xmlc interpreter — a Dafny model

`xmlc` runs a console application described in XML. An `<app>` element
holds `<text>`, `<input>`, `<menu>`, `<action>` and `<python>` elements.
`XMLCApp._handle_node` walks the tree depth first, in document order:

- it prints text;
- it reads lines into a variable store;
- it shows numbered menus and runs the children of the chosen `<option>`;
- it hands `<action>` scripts to a subprocess and `<python>` snippets to `exec`.

This project models that walk as one pure, terminating function (unlike the
code, it has no recursion depth limit; see "## Left out"):

- `Document.Node` is an immutable element: tag, attribute map, optional text
  and ordered child elements.
- Console input is a finite script of lines (`seq<string>`), one line per
  `input()` call.
- The variable store (`self.variables`) is a `map<string, string>`.
- Console output is a trace of events. `Line(s)` is one `print(s)`.
  `Prompt(s)` is the prompt that `input(s)` writes before it reads.
  `Action(script, args)` is an action that passed its guard.
  `Python(code, scope)` is a snippet handed to `exec`, together with the
  variables it can see through `self`.
- `Interpreter.Exec` (for `_handle_node`), `Interpreter.ExecMenu` (for
  `_handle_menu`) and `Interpreter.ExecSeq` (for the `for child in ...`
  loops) return an `Outcome`. `Done(rest, vars, trace)` holds the unread
  input, the new variables and what was emitted. `Aborted(trace)` means
  `input()` was called with no line left. In CPython that raises `EOFError`,
  nothing catches it, and the program ends; the trace then ends with the
  unanswered prompt.
- `PyText` holds the Python string behaviour the walk relies on:
  `str.strip()` over the `str.isspace()` set, `str(n)`, and a simplified
  `int()`. `int()` skips a narrower whitespace set than `strip()`: CPython
  keeps ASCII characters as they are and skips only TAB..CR and SPACE among
  them, so the separators U+001C..U+001F make `int()` fail. The model keeps
  the two sets apart (`StrBlanks`, `IntBlanks`).
- `Interpreter.PyIndex` is Python list indexing. Negative indices count from
  the end, so `options[int(choice) - 1]` with choice "0" picks the last
  option.

Modules: `Wrappers` (Option), `PyText`, `Document`, `Interpreter`,
`Sequencing` (how sibling runs compose), `NodeProperties` (one branch of the
dispatcher at a time), `MenuProperties`, `NonCanonical` (choices typed with
leading zeros) and `Accounting` (invariants of every run, proved by
induction over the tree).

Behaviour of the code that is easy to misread:

- An `<action>` whose `script` is present but empty is reported as missing,
  because the guard is `if not script`.
- A `<python>` element with empty text is skipped like one with no text.
  Whitespace-only code is still handed to `exec`.
- A menu choice is accepted whenever `int(choice) - 1` is a valid Python
  index, so zero and negative numbers down to `-N + 1` select options from
  the end. Only values outside `-N <= c - 1 < N` are "out of range".
- After an invalid choice the menu's output does not consist of
  "Invalid selection." alone. The banner, the listing and the prompt come
  first, and "Invalid selection." is the only line after the prompt.

## Model

| member | source | states |
|---|---|---|
| PyText.IsSpace | xmlc.py:26 | the characters `str.isspace()` accepts and `strip()` removes: TAB..CR, FS..US, SPACE, NEL, NBSP and the Unicode space and line/paragraph separators |
| PyText.IntSpace | xmlc.py:54 | the whitespace `int()` skips around a number: the `isspace()` set without FS..US |
| PyText.Strip | xmlc.py:26 | `strip()` removes a whitespace prefix and a whitespace suffix, and the result neither starts nor ends with whitespace |
| PyText.StripPadded | xmlc.py:26 | conversely, any core without whitespace at its ends, padded with whitespace on both sides, strips back to exactly that core |
| PyText.StripIdempotent | xmlc.py:26 | stripping a stripped text changes nothing |
| PyText.NatToString | xmlc.py:49-50 | `str(n)` of an option number is a non-empty run of ASCII digits with no leading zero other than "0" itself |
| PyText.NatToStringValue | xmlc.py:49-50 | the digits printed for an option number read back as that number |
| PyText.NatToStringInjective | xmlc.py:49-50 | different option numbers print differently |
| PyText.ParseInt | xmlc.py:54 | `int()` succeeds exactly on an optional sign and ASCII digits padded with the whitespace `int()` skips |
| PyText.ParseIntValue | xmlc.py:54 | for every string `int()` accepts (whitespace, optional sign, digits, whitespace) the value is the digits' value, negated after `-`; leading zeros allowed |
| PyText.ParseIntOfString | xmlc.py:54 | `int()` reads `str(c)` back as `c` for every integer, with any whitespace `int()` skips around it |
| PyText.ParseIntPlus | xmlc.py:54 | `int()` accepts an explicit `+` sign |
| PyText.ParseIntForeign | xmlc.py:54 | a choice containing a character outside the simplified grammar of `ParseInt` (not whitespace `int()` skips, not an ASCII digit, not a sign) gives `None` |
| PyText.ParseIntBlank | xmlc.py:54 | an empty or all-whitespace choice raises ValueError (`None`) |
| PyText.SeparatorIsNotIntSpace | xmlc.py:54 | a separator U+001C..U+001F before a number is removed by `strip()` but makes `int()` fail |
| Document.Attr | xmlc.py:30-32 | `attrib.get(key, default)`: the attribute's value when present, otherwise the default; likewise at xmlc.py:44, 49 and 61-62 |
| Document.Options | xmlc.py:46 | `findall('option')` returns the direct children tagged `option`, each of them and nothing else |
| Document.OptionsAppend | xmlc.py:46 | `findall` distributes over concatenation of children, so it keeps document order |
| Document.OptionsSkipNonOption | xmlc.py:46 | a child that is not an `option`, wherever it stands, is never found |
| Interpreter.TextContent | xmlc.py:26 | a `text` node's printed line is its text less `str.isspace()` padding, trimmed at both ends, or "" when it has no text |
| Interpreter.Listing | xmlc.py:48-50 | the listing has one line per option, and line k is "first+k. label" for option k |
| Interpreter.PyIndex | xmlc.py:54 | Python list indexing succeeds exactly for -N <= k < N, and gives k or N + k, always below N |
| Interpreter.Select | xmlc.py:54 | a selected option is one of the N options and comes from a choice `int()` accepts; a menu without options selects nothing |
| Interpreter.Exec | xmlc.py:17-41 | every node's run reads its lines from the front of the input and loses no variable, or aborts on a prompt |
| Interpreter.ExecSeq | xmlc.py:19-20 | a run of siblings (the `app` loop here and the chosen option's loop at xmlc.py:55-56) reads from the front of the input and loses no variable, or aborts on a prompt |
| Interpreter.ExecInput | xmlc.py:29-35 | `input` shows one prompt; it finishes iff a line is left, consumes exactly that line, and changes variables only to that line |
| Interpreter.ExecMenu | xmlc.py:43-58 | a menu's output starts with its header whatever is chosen; it reads from the front of the input, or aborts on a prompt |
| Interpreter.ActionEvents | xmlc.py:61-66 | one event: the line "[ERROR] <action> tag missing 'script' attribute." exactly when `script` is absent or empty, otherwise an action of exactly that script with `args` (default "") |
| Interpreter.PythonEvents | xmlc.py:88-90 | nothing exactly when the text is absent or empty, otherwise one evaluation of the text as written |
| Interpreter.Run | xmlc.py:14-15 | a finished run leaves a suffix of the input; an aborted run ends on a prompt |
| Sequencing.ExecSeqAppend | xmlc.py:19-20 | running siblings `a + b` is running `a`, then `b` from the input and variables `a` left; an abort in `a` ends the run |
| Sequencing.AppThreadsChildren | xmlc.py:18-20 | an `app` node's run, split at any child, is the run of the children before the split continued with the rest |
| Sequencing.ExecSeqConcatTraces | xmlc.py:18-20 | when both parts finish, their traces concatenate, and input and variables pass from the first part to the second |
| Sequencing.UnknownSiblingSkipped | xmlc.py:17-41 | an element with an unknown tag among siblings has no effect on the run |
| NodeProperties.UnknownTagIsNoOp | xmlc.py:17-41 | a tag outside the dispatcher's chain, stray `option` included, reads nothing, prints nothing and keeps the variables |
| NodeProperties.TextPrintsStrippedLine | xmlc.py:25-27 | `text` reads nothing and prints exactly one line: its text with surrounding whitespace removed, or "" without text |
| NodeProperties.InputReadsOneLine | xmlc.py:29-35 | `input` shows its prompt (default "Enter input:") plus a space and consumes one line; a non-empty `var` gets the raw line, other variables are unchanged, and with no `var` the store is unchanged |
| NodeProperties.InputWithoutLineAborts | xmlc.py:29-31 | with no line left, `input` shows its prompt and the run ends |
| NodeProperties.ActionGuard | xmlc.py:61-66 | a missing or empty `script` prints only the "[ERROR] <action> tag missing 'script' attribute." line and starts nothing; otherwise one action starts with `args` (default ""); input and variables are untouched |
| NodeProperties.PythonGuard | xmlc.py:88-90 | `python` with absent or empty text is a complete no-op; otherwise its text goes to `exec` unchanged, with the current variables |
| NodeProperties.CapturedValueReachesPython | xmlc.py:29-41 | a line captured by `input var=...` is seen verbatim by a following `python` snippet |
| MenuProperties.MenuListing | xmlc.py:44-50 | a menu first prints the banner for `title` (default "Menu"), then "k. label" for its k-th `option` child, k = 1..N, default label "Option k", then the choice prompt |
| MenuProperties.MenuSelection | xmlc.py:52-58 | a menu reads exactly one line; a valid choice runs only the chosen option's children, in order, from the next line on; otherwise it prints "Invalid selection." and runs nothing |
| MenuProperties.MenuWithoutLineAborts | xmlc.py:43-52 | with no line left the menu prints its listing and prompt, and the run ends |
| MenuProperties.MenuDependsOnlyOnOptions | xmlc.py:43-58 | two menus with the same attributes and the same options behave identically, whatever other children they have |
| MenuProperties.NonOptionChildIgnored | xmlc.py:46-56 | removing a child that is not an `option` from a menu changes nothing |
| MenuProperties.SelectMeaning | xmlc.py:53-58 | a choice selects an option iff it parses to c with -N <= c - 1 < N, and the option is (c - 1) mod N |
| MenuProperties.ShownNumberSelects | xmlc.py:48-54 | typing the number shown before an option, with any whitespace `int()` skips around it, selects that option |
| MenuProperties.NonPositiveCountsFromEnd | xmlc.py:54 | a choice c in (-N, 0] selects option N + c |
| MenuProperties.ZeroSelectsLast | xmlc.py:54 | "0" selects the last option of a non-empty menu |
| MenuProperties.InvalidChoices | xmlc.py:53-58 | a choice with a foreign character is invalid, and every choice in a menu without options is invalid |
| MenuProperties.ThreeOptionMenu | xmlc.py:43-58 | with three options, "2" runs only the second option's children, and "abc" and "9" print "Invalid selection." |
| NonCanonical.ParseIntLeadingZeros | xmlc.py:54 | zeros typed before `str(n)`, after any sign and within whitespace `int()` skips, are ignored: "007" is 7, "-0" is 0, " +01 " is 1 |
| NonCanonical.LeadingZerosSelect | xmlc.py:48-54 | the number shown before an option, typed with leading zeros ("02"), still selects that option |
| Accounting.ExecAccounted | xmlc.py:17-58 | every run reads a prefix of the input, one line per prompt; it aborts only on a prompt with no line left; variables are only added to, with typed lines |
| Accounting.RunConsumesPrefix | xmlc.py:14-15 | a finished run of the document consumed the first P lines, P being its number of prompts, and every variable holds one of them |
| Accounting.RunAbortsOnlyWhenInputExhausted | xmlc.py:14-15 | an aborted run has shown one prompt more than there were lines, and that prompt is the last thing it showed |
| Accounting.VariablesOnlyGrow | xmlc.py:33-35 | no node removes a variable, and every variable a run sets holds a line typed during that run |

## Left out

- XML parsing (`ET.parse`, xmlc.py:10-11) is left out. It is an external library; the model starts from a built `Node` tree, and comments, tails and namespaces are assumed already handled.
- Action execution after the guard (xmlc.py:68-86) is the single `Action(script, args)` event. Path resolution, the existence check and its "[ERROR] Script not found" line, `shlex.split`, `subprocess.run` and the printed output are filesystem and process I/O.
- `exec` of a `<python>` snippet (xmlc.py:91-94) is the `Python(code, scope)` event. The model assumes the snippet leaves the variable store unchanged and prints nothing. Real code can mutate `self`, print, or fail and print "[PYTHON ERROR] ...". This is an abstraction, not the code's behaviour.
- The `setattr(self, varname, val)` mirror (xmlc.py:34) is left out; the store is a plain map. In the code, `var="variables"` replaces the store with the typed string at line 34, and line 35 then assigns into that string and raises an uncaught `TypeError` on the same `<input>`. Likewise, `var="_handle_node"` breaks later dispatch.
- The command-line entry point (xmlc.py:96-128) is left out: argument checks, the extension switch, loading `.py` files and the "Press Enter" waits.
- PyText.ParseInt: keeps `int()`'s own whitespace set, but accepts only ASCII digits and no underscores, and has no 4300-digit limit. CPython's `int()` also accepts `1_000` and non-ASCII decimal digits, and raises ValueError for overlong digit strings, so for those inputs the model can disagree on the menu choice.
- The menu's `try` also covers the chosen option's children (xmlc.py:53-58). Apart from the choice itself, only console encoding or decoding failures raise a `ValueError` there: `print` failing to encode, or `input()` in a nested `<input>` (xmlc.py:31) or a nested menu (xmlc.py:52) raising `UnicodeDecodeError`. The code would then print "Invalid selection." and skip the option's remaining children after a valid choice. Console encoding is not modelled, so in the model "Invalid selection." comes only from the choice itself.
- Every scripted input line is assumed to decode in the console encoding. A line that does not decode makes `input()` raise `UnicodeDecodeError`. Inside a chosen option that is caught as above; elsewhere it ends the run. The model reads every line successfully.
- Interpreter.Exec: recursion has no depth bound. `_handle_node` recurses once per nesting level (xmlc.py:20, 23, 56), and with CPython's default recursion limit of 1000 frames, about 1000 nested `<app>` elements, or about 500 levels of menu, option and menu, raise an uncaught `RecursionError`. The model returns `Done` on such documents.
- Actions and snippets are assumed to read no console input. In the code the subprocess inherits standard input (xmlc.py:75-79 pass no `stdin`), and exec'd code can call `input()` or raise `SystemExit`. The invariants below about how input is consumed hold only under this assumption:
- Accounting.ExecAccounted: one line per prompt and aborting only on a prompt past the last line hold only if `<action>` scripts and `<python>` snippets read no console input.
- Accounting.RunConsumesPrefix: "consumed the first P lines" counts only the interpreter's own prompts; lines read by a script or a snippet are not modelled.
- Accounting.RunAbortsOnlyWhenInputExhausted: a snippet that raises `SystemExit`, or reads past the end of input, ends the run in a way the model does not show.
- Interpreter.Exec: reading only from the front of the input through prompts assumes actions and snippets read nothing.
- Interpreter.Run: same assumption as Interpreter.Exec.
- `KeyboardInterrupt` and other interruptions of `input()` are not modelled. Lines in the input script carry no trailing newline, as `input()` returns them.

