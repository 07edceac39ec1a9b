# Kestrel code-mode core, modelled in Dafny

Kestrel compares two ways for an LLM agent to use external services. One is
an iterative tool-calling loop against live protocol servers. The other is
"code mode": the model sees a static catalog of service functions and writes
one script against it. This project models the deterministic logic inside
that comparison and proves its properties:

- **Catalog builder** (`code_mode.dfy`, module `CodeMode`). Each function
  definition of a service's `client.py` is rendered as one line,
  `name(a, b=...) -> T`. The services are folded into a catalog that maps
  each service name to its signature lines. A model identifier is routed to
  the Gemini or the Ollama chat model. The parsed syntax tree is an input: the
  nodes of a client module arrive in syntax-walk order, and only synchronous
  definitions, asynchronous definitions and "anything else" are told apart.
  A catalog line can be read back (`ParseSignature`). The round-trip lemma
  shows that the line keeps the name, every positional-or-keyword parameter
  (`args.args`) with its default marker, and the return type. The other
  kinds of parameter never reach the line.
- **Token accounting** (`mcp_client.dfy`, module `McpClient`). The tool-calling
  baseline uses a callback handler as its token counter. It is a class with
  three counters. A ghost history of the LLM-end events it has seen ties the
  counters to sums over that history.
- **Reverse-geocode formatting** (`geocoding.dfy`, module `Geocoding`). This
  turns the geocoder's optional address dictionary into a
  `"city, state, country"` line with Python's `strip(', ')` applied, or
  `"Unknown"`.

`wrappers.dfy` holds the shared `Option` type.

Behaviours of the code worth knowing before reading the model:

- Every synchronous definition the syntax walk meets is catalogued. That
  includes nested functions and class methods, with no private-name filter.
  Asynchronous definitions are left out instead of being flagged.
- A client module that cannot be read or parsed still gets its service
  name in the catalog, with an empty list. It is not skipped. A return
  annotation whose text cannot be produced ends that module's walk: the
  signatures built before it are kept, the definitions after it are lost. So N good and
  M malformed modules give N + M entries when their names differ.
- Client modules are found at any depth of the services tree. A later
  module whose parent directory has the same name replaces the earlier
  entry.

## Model

| member | source | states |
|---|---|---|
| `CodeMode.RenderArgs` | kestrel/code_mode.py:38-44 | the argument loop builds exactly the rendered list: one entry per positional-or-keyword parameter, in order, with `=...` on argument `i` when `i >= num_args - num_defaults` |
| `CodeMode.RenderedArgsShape` | kestrel/code_mode.py:30-44 | the rendered list has one entry per positional-or-keyword parameter; entry `i` is argument `i`'s name, followed by the marker exactly when it is among the last `num_defaults` |
| `CodeMode.MarkerExtremes` | kestrel/code_mode.py:39-44 | with 0 defaults no entry is marked; with at least as many defaults as arguments every entry is marked |
| `CodeMode.MarkerIffDefault` | kestrel/code_mode.py:39-44 | for any Python identifier (Unicode letters included), the entry ends with `=...` if and only if `i >= num_args - num_defaults` |
| `CodeMode.GetFunctionSignatures` | kestrel/code_mode.py:10-62 | the nested loops return the signatures of the parsed walk: one per synchronous definition, with the return type `None`, the name, the constant's text or the unparsed text; a read or parse failure returns the empty list; a return type whose conversion raises returns the signatures built before that definition |
| `CodeMode.RenderFailureKeepsEarlier` | kestrel/code_mode.py:47-62 | when the first definition that cannot be rendered is node `k`, the module's list is exactly what the walk before node `k` emitted |
| `CodeMode.FunctionDefs` | kestrel/code_mode.py:26-27 | the definitions picked from a walk are exactly the synchronous ones it contains, whatever their names |
| `CodeMode.SignaturesFollowDefs` | kestrel/code_mode.py:26-62 | the k-th signature belongs to the k-th synchronous definition in walk order, and that definition's return type renders |
| `CodeMode.SignaturesCount` | kestrel/code_mode.py:26-62 | never more signatures than synchronous definitions, and exactly one per definition when every return type renders |
| `CodeMode.SignaturesOfAppend` | kestrel/code_mode.py:26-57 | when the first part of a walk renders throughout, the signatures of consecutive parts come out consecutively, so walk order is kept |
| `CodeMode.SignatureRoundTrip` | kestrel/code_mode.py:39-56 | for any Python identifier names and a return type that renders, reading a line `name(args) -> T` back gives the definition's name, each positional-or-keyword parameter with its default flag, and the return type text; what the line holds is read back unambiguously |
| `CodeMode.GeocodingSignature` | kestrel/code_mode.py:56 | the geocoding operation renders as `convert_lat_long_to_city(latitude, longitude) -> str` |
| `CodeMode.GetAllClientFunctions` | kestrel/code_mode.py:64-83 | the loop builds the catalog of the pairs in discovery order; its keys are exactly the service names given, and each holds the signatures of the last module with that name (a module that failed to parse gives `[]`) |
| `CodeMode.CatalogKeys` | kestrel/code_mode.py:74-81 | the catalog's keys are exactly the set of parent-directory names |
| `CodeMode.CatalogLastWins` | kestrel/code_mode.py:78-81 | when several modules share a parent name, the entry holds the signatures of the last one |
| `CodeMode.GeocodingCatalog` | kestrel/code_mode.py:74-83 | a tree holding only the geocoding client gives the catalog `{"geocoding": ["convert_lat_long_to_city(latitude, longitude) -> str"]}` |
| `CodeMode.StartsWithIsPrefix` | kestrel/code_mode.py:93 | character-wise `startswith` agrees with the sequence-prefix relation |
| `CodeMode.InitLlm` | kestrel/code_mode.py:86-96 | identifiers beginning with `gemini` go to Gemini at temperature 0; every other identifier goes to Ollama; the identifier is passed on unchanged |
| `McpClient.TokenUsageTracker.constructor` | benchmarking/mcp_client.py:17-21 | a fresh tracker has all three counters at 0 and an empty history |
| `McpClient.TokenUsageTracker.OnLlmEnd` | benchmarking/mcp_client.py:23-32 | the call count goes up by exactly 1, also for a response with no generations; each total goes up by that key's sum over the generations that carry usage metadata, a missing key counting 0; with non-negative counts no total decreases; the history grows by the event |
| `McpClient.TokenUsageTracker.GetTotalTokens` | benchmarking/mcp_client.py:37-39 | equals input plus output tokens, which is the sum of both counts over every event so far |
| `McpClient.TokenUsageTracker.GetSummary` | benchmarking/mcp_client.py:41-48 | has exactly the keys `input_tokens`, `output_tokens`, `total_tokens` and `llm_calls`; `total_tokens` equals `GetTotalTokens()` and `llm_calls` equals the call count, which is the number of events; as a function, it changes no field |
| `McpClient.TotalTokensOfRun` | benchmarking/mcp_client.py:76-87 | a fresh tracker fed a run's events reports the sum of input and output tokens over all of them, and one call per event |
| `McpClient.ResponseTokensFlat` | benchmarking/mcp_client.py:27-32 | what a response adds is the sum over all its generations, taken as one flat list |
| `McpClient.ListWithoutUsage` | benchmarking/mcp_client.py:29 | generations without a message or usage metadata add nothing |
| `McpClient.ResponseWithoutUsage` | benchmarking/mcp_client.py:27-32 | a response with no usage metadata anywhere, such as an empty one, leaves both totals unchanged |
| `McpClient.ResponseTokensNonNegative` | benchmarking/mcp_client.py:31-32 | non-negative usage counts add a non-negative amount |
| `McpClient.HistoryMonotone` | benchmarking/mcp_client.py:25-32 | with non-negative usage counts, the accumulated totals never decrease along the history |
| `Geocoding.ConvertLatLongToCity` | benchmarking/services/geocoding/client.py:12-20 | the reply is `"Unknown"` when there is no location or no address; otherwise it never starts or ends with `,` or a space |
| `Geocoding.CityFallback` | benchmarking/services/geocoding/client.py:15 | the city is the first non-empty value among `city`, `town` and `village`, a missing key counting as `""`, and `""` if all are empty |
| `Geocoding.AddressReplyIsTrimmedJoin` | benchmarking/services/geocoding/client.py:13-18 | with an address, the reply is a slice of `city + ", " + state + ", " + country`; everything cut off on either side is a `,` or a space |
| `Geocoding.EmptyPartsGiveEmpty` | benchmarking/services/geocoding/client.py:15-18 | empty city, state and country give `""`, not `"Unknown"` |
| `Geocoding.CleanPartsJoinedVerbatim` | benchmarking/services/geocoding/client.py:18 | three non-empty parts that do not start or end with `,` or a space are joined exactly |
| `Geocoding.OnlyCountry` | benchmarking/services/geocoding/client.py:15-18 | with no city and no state, the reply is the stripped country |
| `Geocoding.OnlyCity` | benchmarking/services/geocoding/client.py:15-18 | with no state and no country, the reply is the stripped city |
| `Geocoding.MissingStateKeepsEmptySlot` | benchmarking/services/geocoding/client.py:18 | only the ends are stripped: Paris with no state in France reads `"Paris, , France"` |
| `Geocoding.Strip` | benchmarking/services/geocoding/client.py:18 | `strip(', ')` never lengthens its input and leaves no `,` or space at either end |
| `Geocoding.StripIsTrimmedSlice` | benchmarking/services/geocoding/client.py:18 | `strip(', ')` returns a slice `s[i..j]` of its input, with only `,` and spaces outside the slice |
| `Geocoding.StripEmptyIff` | benchmarking/services/geocoding/client.py:18 | `strip(', ')` gives `""` exactly when the input is made only of `,` and spaces |
| `Geocoding.StripIdempotent` | benchmarking/services/geocoding/client.py:18 | stripping twice is the same as stripping once |

## Left out

- Python parsing and the syntax walk (`ast.parse`, `ast.walk`, `ast.unparse`): these are library calls. A client module is given as its syntax nodes in walk order. A complex return annotation carries its unparsed text, a constant annotation the text `str` gives for its value; either carries None when that conversion raises, so which inputs raise is not modelled.
- Parameters other than positional-or-keyword ones: the source reads only `args.args` for the names, so positional-only, `*args`, keyword-only and `**kwargs` parameters never appear in a line, and the model's `FunctionDef` has none of them. `numDefaults` is `len(args.defaults)`, which also counts positional-only defaults, so it may exceed the number of names (`def f(a=1, /, b=2)` renders as `f(b=...) -> None`).
- Filesystem traversal and reading (`Path.rglob`, `open`, loading the prompt templates): these are I/O. The catalog fold takes the (parent directory name, client module) pairs in discovery order.
- Printing of the parse error message: this is output only. The error carries its message, and the result is the same empty list.
- `create_execution_plan` and `write_execution_code`: these format prompts and call a language model over the network.
- The tool-calling agent run (`_run_agent`, `run_agent`): this is asynchronous I/O, wall-clock timing and the protocol client. Its use of the tracker is modelled with the agent's LLM-end events as an input (`TotalTokensOfRun`). Its own copy of the Gemini/Ollama routing matches `InitLlm`.
- LangChain's callback base class, and usage metadata that is present but `None` (in Python that would raise when `.get` is called). A message's usage metadata is either absent or a dictionary of integer counts.
- The reverse-geocoder network call and the float-to-text coordinate string: the geocoder's reply (`Option<Location>`) is an input. The server setup is left out too.
- `benchmarking/services/nasa_iss_locator/client.py`: it is only an HTTP fetch and a dictionary wrap.
- `benchmarking/benchmarking.py`: it is only a print loop.
- `benchmarking/kestrel_client.py`: it unpacks results that `code_mode.py` does not return and calls an executor that does not exist there.
- The sandboxed executor and the import synthesizer: the code has neither, so the model has neither.
- `CodeMode.GetAllClientFunctions`: does not model the key order of the Python dictionary. A Dafny map has no order, and no property of the catalog depends on it.
- Dictionary lookups in the geocoder reply assume string values, as the geocoder returns them.
