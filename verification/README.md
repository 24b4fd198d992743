# adventurelib in Dafny

This project models the core of adventurelib, a small engine for text
adventures, and proves properties of that model. The core has five parts:

- **Grammar compiler.** `_register` turns a declaration such as `take ITEM`
  into literal and placeholder tokens. It checks the handler's parameters
  against the placeholders and the fixed keyword arguments, then appends the
  command to the ordered registry.
- **Dispatcher.** This is the matching loop inside `start`. It strips,
  lower-cases and splits one input line. It then picks the first registered
  command whose pattern lines up with the words, and builds the handler's
  keyword arguments.
- **Location graph.** `Room` keeps a table of declared directions, each with
  its reverse. Every room has exits. Assigning an exit also writes the
  reverse link.
- **Items and Bags.** A Bag is a set of items. It supports lookup and removal
  by alias.
- **Entity builder.** `_get_from_data` (in the rich variant of the library)
  checks one entity's section of parsed data. It produces constructor
  arguments and extra attributes. This part also includes the per-line
  de-dent done by `say`.

Everything is modelled as immutable datatypes and pure functions. Exceptions
become the `Err` case of a `Result`. Python's global state becomes explicit
values:

- the command registry is a `seq<Command>`;
- the world is a direction map plus a map from room ids to exit maps;
- a Bag is a sequence of items with distinct identities.

Handler functions are represented by name. `inspect.signature` is replaced by
an explicit set of parameter names, given when a command is registered.

Modules, one per file: `Results` and `Values` (shared types), `Text`
(Python's `str` primitives), `Order` (string order and `sorted`),
`Grammar`, `Dispatcher`, `World`, `Bags`, `Builder`, `Say`, and `Scenarios`
(concrete scenarios).

One might read the dispatch loop as a prefix match, so that a bare `look`
would also answer `look around`, and `take ITEM` would answer
`take rusty mallet` by capturing `rusty`. It is not one. The loop pairs
tokens and words with `zip_longest` and breaks off when either side runs out
(adventurelib.py:241-247). So a pattern matches only an input of exactly its
length (`Scenarios.LookDoesNotMatchLookAround`,
`Scenarios.TakeRegistrationOrder`).

## Model

| member | source | states |
|---|---|---|
| Grammar.Classify | adventurelib.py:162-179 | A word is accepted iff it is all lower-case letters or all capitals. Capitals give a placeholder whose upper-cased name is the word. Lower case gives a literal equal to the word. Otherwise the error is "letters only" for a non-alphabetic word and "not a mix" for a mixed-case one. |
| Grammar.Compile | adventurelib.py:159-179 | Compilation succeeds iff every word is valid. On success there is one token per word: a lower-case word becomes that literal, and a capitals word becomes a placeholder named by its lower-cased form. On failure the error names the first invalid word. |
| Grammar.RenderCompiled | adventurelib.py:26-32 | Printing a compiled pattern's tokens (`Placeholder.__str__` upper-cases) gives back the declaration's words. |
| Grammar.CompileRendered | adventurelib.py:26-32 | Compiling the printed form of any pattern of lower-case literals and lower-case placeholder names gives the same pattern back. |
| Grammar.PlaceholderNames | adventurelib.py:168-171 | The collected argument names are exactly the names of the pattern's placeholders. |
| Grammar.Register | adventurelib.py:157-193 | Registration succeeds iff the declaration compiles and the handler's parameter set equals the placeholder names united with the keyword names. A declaration that does not compile raises the first bad word's error. A signature mismatch reports the expected names as a set; the source's message lists them in order and with repeats. On success exactly one entry (pattern, handler, kwargs) is appended at the end and the earlier entries are kept. Registration keeps the registry well formed. |
| Grammar.QuitSkipsSignatureCheck | adventurelib.py:9-11 | The built-in `quit` entry starts a well-formed registry without satisfying the signature check: `sys.exit` declares an optional `status` that `quit` never supplies. |
| Text.AlphaCase | adventurelib.py:163-172 | On an alphabetic word, `isupper` means all capitals and `islower` means all lower case. |
| Text.Lower | adventurelib.py:238 | `lower()` keeps the length, maps each ASCII capital to its lower-case letter, leaves other characters alone, and leaves no capital behind. |
| Text.Upper | adventurelib.py:31-32 | `upper()` keeps the length, maps each ASCII lower-case letter to its capital, leaves other characters alone, and leaves no lower-case letter behind. |
| Text.LowerUpperRoundTrip | adventurelib.py:168-171 | A placeholder name (the lower-cased capitals) is lower-case letters only, and upper-casing it restores the declared word. |
| Text.Strip | adventurelib.py:230 | The stripped line is the input with whitespace removed from both ends and nowhere else. It is empty exactly when the line is all whitespace. |
| Text.Split | adventurelib.py:238 | `split()` yields non-empty, whitespace-free words whose concatenation is the input with its whitespace removed. |
| Text.SplitAtBlanks | adventurelib.py:238 | The input is its words interleaved with whitespace-only gaps, every gap between two words non-empty. So the words are exactly the maximal runs of non-whitespace. |
| Text.SplitEmpty | adventurelib.py:238 | `split()` gives no words exactly when the string is all whitespace. |
| Text.SplitJoinRoundTrip | adventurelib.py:238 | Splitting words joined by single spaces gives the words back. |
| Dispatcher.Words | adventurelib.py:230-238 | The words of a line are non-empty and whitespace-free, and there are none exactly when the line is all whitespace. |
| Dispatcher.LastCapture | adventurelib.py:244-245 | A name is bound by some position exactly when the pattern has a placeholder of that name. |
| Dispatcher.Pair | adventurelib.py:240-250 | The `zip_longest` loop completes iff the pattern and the words have the same length and every literal equals the word at its position. The result holds the fixed keywords plus the placeholder names. Each name is bound to the word at its last placeholder position, and the fixed value is used otherwise. |
| Dispatcher.FirstMatch | adventurelib.py:239-252 | No entry is chosen iff none lines up with the words. Otherwise the chosen entry lines up, no earlier entry does, and its arguments are the fixed keywords overlaid with the captures. |
| Dispatcher.Dispatch | adventurelib.py:230-252 | A line is ignored iff it is all whitespace. It is "not understood" iff it is not blank and no entry lines up, and the fallback receives the stripped line. Otherwise the first entry in order that lines up is invoked with its keyword arguments overlaid by the captured words. |
| Dispatcher.DispatchPassesDeclaredParams | adventurelib.py:240-249 | In a registry built by registration, every registered handler that is invoked receives exactly the parameter names it declares. The built-in `quit` receives no arguments. |
| Dispatcher.FirstMatchStable | adventurelib.py:239-250 | Appending entries never changes which entry answers a line that some entry already answers. |
| Dispatcher.RegisterThenDispatch | adventurelib.py:193 | After a successful registration, lines handled before are handled the same way. A line nothing understood before, and that the new pattern lines up with, now invokes the new handler. |
| Order.SortedOf | adventurelib.py:80 | `sorted` of a set of strings holds each member exactly once, in strictly ascending Python string order. |
| World.Initial | adventurelib.py:96-97 | The initial direction table (north/south, east/west) is symmetric and there are no rooms. |
| World.AddDirection | adventurelib.py:41-55 | It succeeds iff both names are lower case and undeclared. Otherwise the error is the first failing check in the source's order, and nothing has changed. On success each name maps to the other and older directions keep their reverses. Rooms are untouched, so every exit in the new directions is `None`. Symmetry is preserved. |
| World.NewRoom | adventurelib.py:57-58 | A new room has its description stripped of surrounding whitespace and no exits. Other rooms are unchanged. |
| World.Exit | adventurelib.py:68-76 | An undeclared direction raises `KeyError`. A declared one yields the neighbour, or `None` when no exit is set. |
| World.Exits | adventurelib.py:78-80 | The result is strictly ascending and holds exactly the declared directions that lead somewhere. |
| World.ExitsAgreeWithExit | adventurelib.py:68-80 | A direction is listed by `exits()` iff `exit()` returns a room for it. |
| World.Link | adventurelib.py:82-92 | An undeclared direction raises and changes nothing. Otherwise `a` leads to `b` in `d`, and `b` leads back to `a` in the reverse of `d`. No other exit, description or direction changes, and validity is preserved. |
| World.Unlink | adventurelib.py:93-94 | Assigning `None` clears that one exit of that room only. No reverse link is touched. |
| World.DeclareThenLink | adventurelib.py:41-92 | After declaring a pair `(f, r)` and assigning `a.f = b`, `b.exit(r)` is `a` and `a.exit(f)` is `b`. |
| Bags.Find | adventurelib.py:125-129 | `_find` returns the first member, in iteration order, that has the name among its aliases. It returns `None` iff no member does. |
| Bags.HasName | adventurelib.py:138-139 | `name in bag` holds iff some member has `name` among its aliases. |
| Bags.Take | adventurelib.py:143-154 | `take` returns `None` and leaves the bag unchanged iff no member answers to the name. Otherwise it returns a member answering to the name, and the bag loses exactly that identity and nothing else. The bag stays a set. |
| Bags.Add | adventurelib.py:117 | Adding to the set adds the identity and keeps everything already there. A present identity is not duplicated. |
| Bags.NewItem | adventurelib.py:103-105 | A new item keeps its name, and its aliases are the name followed by the extra aliases. |
| Bags.NewItemAnswers | adventurelib.py:103-105 | A new item put in a bag is found by its name and by each of its aliases. |
| Bags.TakeOnlyHolder | adventurelib.py:143-154 | After taking the only member answering to a name, the bag no longer answers to it. |
| Bags.ContainsAsWritten | adventurelib.py:131-141 | As written, a string query is answered by alias and any item query raises. |
| Bags.Contains | adventurelib.py:131-141 | As documented, a string is found by alias and an item by identity. |
| Bags.MemberByIdentityRaises | adventurelib.py:140-141 | For a bag holding the mallet, asking for the mallet itself raises as written, while the documented test answers true. |
| Bags.TakeRemovesIdentity | adventurelib.py:151-154 | The taken item was a member by identity and no longer is. |
| Builder.LookupAsWritten | adventurelib_rich.py:226-247 | With no data loaded (or an empty document) it raises. A class without a section is a missing section. An entity missing from a present section is reported as a missing section when its name equals the class name, and as an unknown name otherwise. A present entity's section is returned. |
| Builder.LookupsDiffer | adventurelib_rich.py:234-240 | The lookup as written and the corrected lookup differ exactly on an entity named like its class that is missing from an existing section. |
| Builder.RoomNamedRoomMisreported | adventurelib_rich.py:236-240 | A room named "Room", absent from an existing Room section, is reported as a missing section by the code as written, and as an unknown name by the corrected lookup. |
| Builder.Lookup | adventurelib_rich.py:226-247 | "Not loaded" is reported iff no non-empty data is loaded. "Section missing" is reported iff the class has no section. "Unknown name" is reported iff the section lacks the entity. Otherwise the entity's section is returned. |
| Builder.Attributes | adventurelib_rich.py:282-290 | Non-consumed keys are refused iff one names an existing attribute that is not whitelisted, and the error names the first such key. Otherwise the attributes are exactly the non-consumed pairs. |
| Builder.Build | adventurelib_rich.py:212-292 | It looks the section up with the corrected `Builder.Lookup`, so a room named `Room` missing from an existing section gives the unknown-name error where the source reports a missing section. Lookup errors pass through. A room without `description` raises the missing-description error, and a non-text one fails on `strip`. Truthy `aliases` that are not a list fail on `[name] + aliases`. For a constructible section with a conflicting key, the error names the first conflicting key. Building succeeds iff the section is constructible and no key conflicts. A room's only argument is its description, and `description` is never also an attribute. An item's first argument is its name. Truthy aliases add the lower-cased name and aliases and are consumed. The attributes are exactly the non-consumed pairs. |
| Builder.Get | adventurelib_rich.py:272 | `get` gives nothing iff the section has no such key, and otherwise a value stored under that key. |
| Builder.EmptyAliasesConflict | adventurelib_rich.py:270-290 | An empty `aliases` list is not consumed and collides with the item's own `aliases` attribute. |
| Say.Dedent | adventurelib_rich.py:114-116 | The de-dented message has as many lines as the original. Each line is the original line with spaces and tabs removed from both ends and nowhere else. |
| Say.DedentIdempotent | adventurelib_rich.py:116 | De-denting an already de-dented message changes nothing. |
| Scenarios.LookDoesNotMatchLookAround | adventurelib.py:241-247 | A registry holding only `look` does not understand `look around`. |
| Scenarios.TakeRegistrationOrder | adventurelib.py:239-250 | With `take ITEM` and `take rusty mallet` registered in either order, `take rusty mallet` goes to the three-word pattern. `take mallet` goes to the placeholder with `item = "mallet"`. |
| Scenarios.BlankLineIgnored | adventurelib.py:235-236 | A line of blanks invokes nothing. |
| Scenarios.NorthAndBack | adventurelib.py:82-92 | Linking the Valley north of the Dark Room makes the Valley lead back south, and the Dark Room's exits are exactly `["north"]`. |
| Scenarios.TakeMallet | adventurelib.py:143-154 | Taking the mallet by an alias from a bag holding only it returns the mallet and leaves the bag empty. |

## Left out

- The interactive loop's input and output are left out: the prompt, `input`, `print`, the blank separator line and end-of-input handling. `quit` is present only as the built-in registry entry. Calling `sys.exit` is not modelled.
- `help` and its `sorted(commands)` are left out. Sorting tuples that mix strings, placeholders and functions is not well defined, and the function only prints.
- The `help` entries that `start(help=True)` inserts are left out of the registry. By default `start` puts `('?',)` and `('help',)` at the front, ahead of `quit` (adventurelib.py:223-227). So in a default game the lines `?` and `help` always reach the built-in `help`, and a game's own `@when("help")` is never reached. `Grammar.WellFormed`, `Dispatcher.DispatchPassesDeclaredParams` and `Dispatcher.RegisterThenDispatch` describe the registry of `start(help=False)`, whose first entry is `quit`.
- Exception messages are left out; each error records only which check failed. `NotLetters` and `MixedCase` carry the offending word, while the source's message quotes the whole declaration (adventurelib.py:165, 176). `add_direction`'s lower-case message leaves its `%r` unformatted (adventurelib.py:45-47).
- Contexts are left out. The code has no context filtering, so none is modelled.
- Handler invocation is left out. A dispatch outcome names the handler and its keyword arguments; running the handler is game code.
- Case is modelled for ASCII letters only. `isalpha`, `isupper`, `islower`, `lower` and `upper` treat other characters as uncased non-letters. Python would accept a word such as `café` as a literal; here it is rejected as not letters. Whitespace is the set of characters `str.isspace` accepts.
- Sections of data that are not tables, list elements that are not strings, and TOML floats, dates and nested tables are left out, because `Value` cannot represent them. `setattr` would store such values as plain attributes. Only under `aliases` would a non-string list element fail, on `label.lower()`.
- The error raised for an undeclared direction in `__setattr__` names a class the file does not define. It is modelled as a distinct `UndeclaredDirection` error. Graph state is unchanged either way.
- World.AddDirection: directions are not kept apart from other room attributes. The source stores a direction as a class attribute (adventurelib.py:54-55) and reads exits with `getattr` (line 76). So a direction named `description` would make `exit("description")` return the description, and `exits()` would list it. A direction named `exit` or `exits` would replace the method. The model keeps exits in their own map, so every exit in a new direction is `None`.
- Grammar.QuitSkipsSignatureCheck: `WellFormed` requires the signature check only of entries after the built-in `quit`. `sys.exit` is recorded with its optional parameter `status`, which `quit` never supplies.
- Global reciprocity is not claimed. Re-assigning an exit leaves the old neighbour's reverse link in place, because the source writes only the new pair. Only the post-assignment fact is stated.
- Attributes of rooms other than exits are left out: labels, item bags and custom values. The builder returns them as data, and rooms store only their description and exits. Assigning a non-room value other than `None` to a direction name is left out.
- The deep copy of class-level Bags in `Room.__init__` is left out. Bags are values here, so every room's Bag is its own.
- A Bag's member order stands for the set's iteration order, which Python leaves unspecified. `take` removes the first match in that order.
- `__str__` and `__repr__` of rooms and items are left out, as is `say`'s stringification of non-string messages. `Say.Dedent` takes the string.
- The rest of the rich variant is left out: data file loading (`load`), rich console rendering, template substitution, the prompt_toolkit prompt and completion, and the `protected` decorator. They are I/O, clock or third-party rendering concerns.
- `_get_from_data` for classes other than `Room` and `Item` is left out. Only those two have a `load` method.

## Findings

| source | as written | input that shows it | evidently intended | confidence | as-written member | corrected member |
|---|---|---|---|---|---|---|
| adventurelib.py:141 | `set.__contains__(v)` is called without the bag, so any non-string query raises `TypeError` | `mallet in bag` for an `Item` (`Bags.MemberByIdentityRaises`) | `set.__contains__(self, v)`: membership by identity, as the docstring says | high; not executed | Bags.ContainsAsWritten | Bags.Contains |
| adventurelib_rich.py:237 | the missing key is compared with the class name, so an entity named like its class is reported as a missing section | a room named `Room` absent from an existing `[Room]` section (`Builder.RoomNamedRoomMisreported`) | report "Invalid room name" whenever the section exists | medium; not executed | Builder.LookupAsWritten | Builder.Lookup |
