# RAG-Workshop-1 retriever and grounded prompt, in Dafny

A model of the logic in `main.py` of a small retrieval-augmented generation demo:

- **Document store** (`Documents`): a constant, ordered list of `Doc(title, content)` records.
  It holds the two records of the source, "Mebrie Awoke" and "Ethiopian Higher Education", with
  their texts character for character, and the sentinel `"No document found."`.
- **Retriever** (`Retriever`): `retrieve_doc` scans the store in order. It lower-cases the query
  and each title and tests whether the query is a substring of the title. It returns the content
  of the first record that passes, or the sentinel. `Retrieve` is that scan as a recursive
  function over any list of records. `RetrieveDoc` is the source's loop with its early return,
  over the fixed store, proved equal to `Retrieve`.
- **Case folding and substrings** (`Text`): `str.lower()` on ASCII letters and Python's
  `sub in s` on strings (`Contains`, defined by an occurrence position).
- **Grounded prompt** (`Prompt`): the f-string template of the RAG stage. `BuildGrounded` places
  the fixed instruction, `Context:` and the context, `Question:` and the question, with the
  template's line breaks. `ParseGrounded` is its inverse, used to state that the context and
  question can be read back exactly.
- **RAG stage** (`Pipeline`): retrieve for the fixed query `"Mebrie Awoke"`, then build the prompt
  around the fixed question `"whoe is mebrie?"`. This is the prompt the demo sends to the model.

The store is a `const` and `RetrieveDoc` has no `modifies` clause, so retrieval only reads the
store.

Reading a context back from a prompt is not possible for every context. If the context itself
contains `"\n\nQuestion:\n"`, two different (context, question) pairs give the same prompt
(`Prompt.AmbiguousPrompt`). `Prompt.ParseBuildRoundTrip` states exactly when the round trip holds
(`Separable`). Every context the retriever can return has no line break, so for retrieved
contexts the round trip always holds (`Pipeline.RetrievedContextRoundTrips`).

## Model

| member | source | states |
|---|---|---|
| `Text.LowerChar` | main.py:38 | one character of `lower()`: an ASCII capital moves up by 32 to its small letter, every other character is unchanged, and the result is never a capital |
| `Text.Lower` | main.py:38 | `lower()` keeps the length and lower-cases each position independently |
| `Text.SameUpToCaseLower` | main.py:38 | two strings lower-case to the same string if and only if they differ only in the case of ASCII letters |
| `Text.LowerIdempotent` | main.py:38 | lower-casing twice is the same as lower-casing once |
| `Text.Contains` | main.py:38 | Python's `sub in s`: holds exactly when `sub` occurs at some position of `s`; the empty string is always contained, and a contained string is never longer than `s` |
| `Documents.StoreInSourceOrder` | main.py:18-31 | the store holds exactly two records, "Mebrie Awoke" then "Ethiopian Higher Education"; the first content is the join of the four literals of main.py:21-24 and the second the join of the two literals of main.py:28-29, each written out as in the source |
| `Documents.SentinelIsNoStoredContent` | main.py:18-40 | the sentinel "No document found." is not the content of any stored record |
| `Retriever.Matches` | main.py:38 | the per-record test: the lower-cased query is a substring of the lower-cased title; only the title is read, and a query longer than the title never matches |
| `Retriever.Retrieve` | main.py:36-40 | the result is either the sentinel or the content of some record of the list; nothing else is ever returned |
| `Retriever.RetrieveDoc` | main.py:36-40 | the loop with early return over the store returns exactly what the first-match search `Retrieve` returns, and changes nothing |
| `Retriever.RetrieveFirstMatch` | main.py:37-39 | when record `k` is the first whose lower-cased title contains the lower-cased query, the result is record `k`'s content; later matches are ignored |
| `Retriever.RetrieveSomeMatch` | main.py:37-39 | when any record matches, some record at or before it is the first match and the result is that record's content |
| `Retriever.RetrieveNoMatch` | main.py:40 | when no title contains the query case-insensitively, the result is exactly the sentinel |
| `Retriever.RetrieveIgnoresQueryCase` | main.py:38 | two queries that differ only in ASCII letter case give the same result |
| `Retriever.RetrieveIgnoresTitleCase` | main.py:38 | two lists whose titles differ only in ASCII letter case, with equal contents, give the same result |
| `Retriever.RetrieveEmptyQuery` | main.py:37-39 | with a non-empty list, the empty query selects the first record's content |
| `Retriever.StoreSentinelIffNoMatch` | main.py:36-40 | on the store, the result is the sentinel if and only if no title matches the query |
| `Retriever.RetrieveMebrie` | main.py:18-39 | the query "Mebrie Awoke" on the store returns the first record's content |
| `Retriever.RetrieveEducationLowerCase` | main.py:26-39 | the all-lower-case query "ethiopian higher education" finds the second record, whose title has capitals |
| `Retriever.RetrieveUnknownTopic` | main.py:18-40 | the query "nonexistent-topic-xyz" on the store returns exactly the sentinel |
| `Retriever.RetrieveSearchesTitlesOnly` | main.py:26-40 | "Jimma" occurs in the second record's content but in no title, and the result is the sentinel: only titles are searched |
| `Prompt.BuildGrounded` | main.py:83-92 | the prompt is the instruction, then `Context:` and the context verbatim, then the question label and the question verbatim, then a closing line break, in that order at those positions |
| `Prompt.InstructionPhrases` | main.py:84-85 | the instruction tells the model to use ONLY the context and to say "I don't know" otherwise |
| `Prompt.SplitAtLabel` | main.py:87-91 | a split of the prompt body puts the body back together around the question label, and takes the first label, so the context part is separable; no split exactly when the body lacks the label |
| `Prompt.ParseGrounded` | main.py:83-92 | whatever a prompt is read back into rebuilds that same prompt, with a separable context |
| `Prompt.ParseBuildRoundTrip` | main.py:83-92 | reading back a built prompt gives exactly its context and question if and only if the context is separable |
| `Prompt.BuildGroundedInjective` | main.py:83-92 | for separable contexts, equal prompts come from equal contexts and equal questions |
| `Prompt.AmbiguousPrompt` | main.py:87-91 | a context containing the question label makes two different inputs produce the same prompt |
| `Prompt.NoLineBreakSeparable` | main.py:87-91 | a context without a line break is separable |
| `Pipeline.StoredTextsHaveNoLineBreak` | main.py:18-40 | neither the sentinel nor any stored content contains a line break |
| `Pipeline.RetrievedContextRoundTrips` | main.py:81-92 | for every query and question, the retrieved context and the question read back exactly from the grounded prompt |
| `Pipeline.RagPrompt` | main.py:74-92 | the RAG stage's prompt carries the first record's content as context and the user's question, and both read back from it |

## Left out

- Environment loading and the API-key check (main.py:8-13): process configuration, not logic.
- The `ChatGroq` client and every `llm.invoke` call (main.py:45-49, 58, 67, 78, 95): calls to a hosted model over the network; their answers are not determined by this code.
- The zero-shot prompts (main.py:56-67, 74-78): each is a fixed string, and the question is handed to the model unchanged; there is no prompt-building step to model.
- All printing, including the workflow diagram (main.py:54-113): console output only.
- Text.LowerChar: models `str.lower()` on ASCII letters only; Unicode case mappings beyond A-Z are not modelled. The stored titles and the demo query are ASCII, but other queries can differ: Python lower-cases the KELVIN SIGN U+212A to `k`, which occurs in "mebrie awoke", so `retrieve_doc("\u212a")` returns the first record's content, while the model's `Retrieve(Store, "\u212a")` is the sentinel.
- Text.Lower: inherits the ASCII-only case mapping of `LowerChar`.
- The literals of the stored contents are cut into shorter pieces in the model; `Documents.StoreInSourceOrder` proves the joined strings equal the joins of the source's own literals.
- An unconditional round trip from the prompt back to its context and question is not claimed: it fails for contexts that contain the question label (see `Prompt.AmbiguousPrompt`); it is proved for every context the retriever can return.
