# nuldc: pagination walkers and archive naming, in Dafny

nuldc is a Python client for Northwestern University Libraries' Digital
Collections API. This project models two parts of it and proves properties
of the model.

1. **The result walkers in `nuldc/helpers.py`.**
   - `get_all_search_results` follows the `pagination.next_url` cursor of a
     flat ("opensearch") result page. It appends each fetched page's `data`
     to the start page.
   - `get_all_iiif` follows IIIF Presentation "Collection" paging. It pops a
     trailing Collection item and fetches its `id`. It appends each fetched
     page's remaining `items` to the start manifest.
   - `get_search_results` is the dispatcher that chooses between them.
2. **The pure string logic of `nuldc/dump.py`.**
   - `slugify`.
   - The archive basename `slug-colid` built in `dump_collection`.
   - The incremental query that `main` derives from the `_updated_at.txt`
     marker file.

Files:

- `pages.dfy` (module `Pages`): the JSON values and the two page shapes.
- `helpers.dfy` (module `Helpers`): the walkers, the dispatcher and their lemmas.
- `pystrings.dfy` (module `PyStrings`): the Python `str` operations that
  `dump.py` uses: `lower`, `strip` and the character classes.
- `dump.dfy` (module `Dump`): `slugify`, the basename and the query.

How the model represents the walkers:

- **The network is a value.** It is a `map` from URL to decoded page. A URL
  the map does not hold stands for a `requests.get(...).json()` call that
  raised.
- **Exceptions are outcomes.** A Python exception becomes the outcome
  `Raised(...)`. The state the start object is left in at that moment is
  stated exactly.
- **The walkers are imperative.** Each walker is a method with a `while`
  loop over a class that holds the start object's fields. The method
  changes only the field the Python code reassigns: `data` or `items`.
- **Each method is proved against a value function.** These are
  `CursorWalk` and `IiifWalk`.
- **The lemmas describe the value functions.** They use predicates that say
  which chain of pages the network serves:
  - `CursorLinked` / `IiifLinked`: the pages form a linked chain;
  - `…Complete`: the chain ends with a falsy pointer;
  - `…Broken`: the chain ends at a pointer that cannot be fetched, or at a
    page with no items.
  The lemmas cover both directions: a walk returns exactly such a chain,
  and every such chain is what the walk returns.
- **Termination uses fuel.** Python loops forever on a cyclic chain (the
  code has no cycle guard). Each walker therefore takes a ghost fuel `n` and
  requires that the chain ends or breaks within `n` fetches
  (`CursorEnds` / `IiifEnds`). `CursorCompleteEnds` and `IiifCompleteEnds`
  show that fuel `k` suffices for a complete chain of `k` pages.

How the model represents `slugify`:

- It has one function or composition per rewrite of `dump.py:37-40`, over
  ASCII input. Rewrite 1 is `Strip(Lower(s))`, built from two `PyStrings`
  functions. Rewrites 2 and 3 are `DropSpecial` and `CollapseSeparators`.
  Rewrite 4 is `TrimDashes`, built from its two halves.
- `Alnums` filters a string to its letters and digits. The lemmas use it to
  state that letters and digits survive.

Where the code and its tests disagree, the model follows the code. See the
last lines of "Left out".

## Model

| member | source | states |
|---|---|---|
| Pages.Truthy | nuldc/helpers.py:15-29 | Python truthiness of the `next` pointer in `while next:` (lines 15 and 29): None and `""` are false, and every other string is true. It has no `ensures` of its own. `CursorWalkNoNext`, `CursorCompleteIsFollowed` and `IiifCompleteEnds` use it as the stopping test. |
| Helpers.CursorWalk | nuldc/helpers.py:24-33 | The state `get_all_search_results` leaves: the start `data` followed by the `data` of each page fetched along `next_url`, and how the walk ended. It has no `ensures` of its own. `CursorWalkCollectsChain`, `CursorWalkStopsAtBrokenLink`, `CursorWalkNoNext` and `CursorWalkOnlyExtendsData` characterise it, and `GetAllSearchResults` is proved equal to it. |
| Helpers.GetAllSearchResults | nuldc/helpers.py:24-33 | Returns the start object itself. Its new state is `CursorWalk` of its old state: only `data` changes. The outcome is the walk's. |
| Helpers.FollowCursor | nuldc/helpers.py:29-32 | Following `next_url` can only fail with a fetch failure. |
| Helpers.FollowCursorAlongChain | nuldc/helpers.py:29-32 | Along a linked chain of pages, the walk fetches exactly those pages, in link order, and uses one unit of fuel per page. It then goes on from the chain's last pointer. |
| Helpers.CursorCompleteIsFollowed | nuldc/helpers.py:29-32 | On a chain that ends in a falsy `next_url`, the walk fetches exactly its pages and succeeds. |
| Helpers.CursorBrokenIsFollowed | nuldc/helpers.py:29-30 | On a chain that ends at a URL that cannot be fetched, the walk fetches exactly the pages before it and raises at that URL. |
| Helpers.FollowCursorIsChain | nuldc/helpers.py:29-32 | Conversely, what the walk fetched is a complete chain when it succeeds, and a chain broken at the failing URL when it raises. |
| Helpers.CursorCompleteEnds | nuldc/helpers.py:29 | A complete chain of `k` pages ends within `k` fetches. |
| Helpers.CursorWalkCollectsChain | nuldc/helpers.py:27-32 | The returned `data` is the start page's `data` followed by the `data` of every page of the `next_url` chain, in link order. |
| Helpers.CursorWalkStopsAtBrokenLink | nuldc/helpers.py:29-31 | If a fetch raises, the records of the pages before it are already appended and the outcome is that failure. |
| Helpers.CursorWalkNoNext | nuldc/helpers.py:27-33 | A falsy start `next_url` (None or "") fetches nothing and returns the start page unchanged. |
| Helpers.CursorWalkOnlyExtendsData | nuldc/helpers.py:25-33 | `pagination`, including the first `next_url`, and every other key are untouched. The start records stay in front. |
| Helpers.CursorTwoPagesScenario | tests/test_nuldc.py:96-101 | Two records linking to a final page of two records give four records, and the walk succeeds. |
| Helpers.Trim | nuldc/helpers.py:12-18 | The items left after `items.pop()`, which runs only when the last item's `type` is `"Collection"`; otherwise the items are left whole. It has no `ensures` of its own. `FollowIiifKept`, `IiifWalkKeepsStartItems` and `IiifWalkCollectsChain` state how the walk uses it. |
| Helpers.Continuation | nuldc/helpers.py:12-20 | The next URL a page yields: the popped Collection's `.get('id')`, which is None when the key is missing, or None (`next = None`) when the last item is no Collection. It has no `ensures` of its own. `FollowIiifKept` and `FollowIiifIsChain` state how the walk follows it. |
| Helpers.IiifWalk | nuldc/helpers.py:9-22 | The state `get_all_iiif` leaves: the start `items` without their trailing Collection, then each fetched page's items without theirs, and how the walk ended, including the two start errors. It has no `ensures` of its own. `IiifWalkStartErrors`, `IiifWalkKeepsStartItems`, `IiifWalkCollectsChain`, `IiifWalkStopsAtBrokenLink`, `IiifWalkLastPageInFull` and `IiifWalkRemovesContinuations` characterise it, and `GetAllIiif` is proved equal to it. |
| Helpers.GetAllIiif | nuldc/helpers.py:9-22 | Returns the start manifest itself. Its new `items` are `IiifWalk` of its old state. The errors are an empty start `items`, a start without a trailing Collection, and a failed fetch or an empty fetched page. The state at each error is stated exactly. |
| Helpers.FollowIiif | nuldc/helpers.py:15-21 | Following Collection pointers fails only with a fetch failure or an empty page. |
| Helpers.FollowIiifKept | nuldc/helpers.py:16-21 | One fetch adds the page's items, less a trailing Collection, in front of what the rest of the walk adds. The next URL is that Collection's `id`. |
| Helpers.IiifLinkedFuel | nuldc/helpers.py:15-20 | A linked chain of non-empty pages uses one unit of fuel per page. |
| Helpers.FollowIiifAlongChain | nuldc/helpers.py:15-21 | Along a linked chain, the walk fetches exactly its pages, in link order, then goes on from the chain's last pointer. |
| Helpers.FollowIiifIsChain | nuldc/helpers.py:15-21 | Conversely, the pages fetched form a complete chain, or a chain broken at the failure the walk reports. |
| Helpers.IiifCompleteEnds | nuldc/helpers.py:15 | A complete chain of `k` pages ends within `k` fetches. |
| Helpers.IiifWalkStartErrors | nuldc/helpers.py:12-15 | Empty start `items` raises EmptyItems. A start whose last item is no Collection raises NoContinuation (`next` unbound). Both leave the manifest unchanged. |
| Helpers.IiifWalkKeepsStartItems | nuldc/helpers.py:12-21 | Only the start's trailing Collection is dropped. Its other items stay in front, in order, and every other key is untouched. |
| Helpers.IiifWalkCollectsChain | nuldc/helpers.py:12-21 | The result `items` are the start's items without their trailing Collection, then each fetched page's items without theirs, in link order. |
| Helpers.IiifWalkStopsAtBrokenLink | nuldc/helpers.py:16-21 | A failed fetch, or a fetched page with empty `items`, ends the walk with that error. The pages before it are already appended. |
| Helpers.IiifWalkLastPageInFull | nuldc/helpers.py:17-21 | The page that ends the walk because its last item is no Collection is appended in full. |
| Helpers.KeptHasNoCollections | nuldc/helpers.py:17-21 | When every page of a chain has its Collection, if any, last, the items the walk keeps from the chain hold no Collection. |
| Helpers.IiifWalkRemovesContinuations | nuldc/helpers.py:12-21 | When the start page and every page the walk fetches have their Collection item, if any, last, the result `items` contain no Collection, however the walk ends. Pages the walk does not reach are unconstrained. |
| Helpers.IiifTwoPagesScenario | tests/test_nuldc.py:85-93 | Two pages of two manifests, the first linking to the second, give four items, no Collection, and success. |
| Helpers.AsFormat | nuldc/helpers.py:39-41 | `parameters.get('as') == format`: false when the key is missing, because `.get` then gives None. It has no `ensures` of its own. `GetSearchResults` states the dispatch it decides. |
| Helpers.GetSearchResults | nuldc/helpers.py:35-42 | A failed first request at the search endpoint raises, whatever the arguments. Otherwise, `all_results` with `as == "iiif"` runs the IIIF walk on the response, and `"opensearch"` runs the cursor walk. Every other combination returns None and needs no fuel. |
| PyStrings.IsSpace | nuldc/dump.py:37-39 | Python's `str.isspace` set, which is also what `\s` matches in a `str` pattern: U+0009-U+000D, U+001C-U+0020, U+0085, U+00A0, U+1680, U+2000-U+200A, U+2028, U+2029, U+202F, U+205F and U+3000. It has no `ensures` of its own. `StripIsSlice` and `DropSpecialOfChar` use it. |
| PyStrings.IsWordChar | nuldc/dump.py:38 | What `\w` matches among ASCII characters: letters, digits and `_`. It has no `ensures` of its own. `DropSpecialOfChar` uses it. |
| PyStrings.Lower | nuldc/dump.py:37 | `lower` keeps the length. |
| PyStrings.LowerIsLower | nuldc/dump.py:37 | `lower` leaves no upper-case letter, keeps each character's being a letter or digit, and changes no character except upper-case letters. |
| PyStrings.LStrip | nuldc/dump.py:37 | `lstrip` keeps a suffix, removes only whitespace, and leaves no leading whitespace. |
| PyStrings.RStrip | nuldc/dump.py:37 | `rstrip` keeps a prefix, removes only whitespace, and leaves no trailing whitespace. |
| PyStrings.StripIsSlice | nuldc/dump.py:37 | `strip` keeps one slice, removes only whitespace, and leaves none at either end. |
| PyStrings.Strip | nuldc/dump.py:37 | `strip` is `rstrip` after `lstrip`. It has no `ensures` of its own. `StripIsSlice` and `StripUnchanged` characterise it. |
| PyStrings.StripUnchanged | nuldc/dump.py:107 | A string with no whitespace at either end is its own `strip`. |
| Dump.DropSpecial | nuldc/dump.py:38 | `re.sub(r'[^\w\s-]', '', s)` keeps each ASCII word character, whitespace character and `-`, in order, and deletes the rest. It has no `ensures` of its own. `DropSpecialOfChar` and `DropSpecialConcat` determine it on every string. `DropSpecialOfLower` and `DropSpecialKeepsAlnums` state what it leaves of lower-cased text. |
| Dump.DropSpecialOfChar | nuldc/dump.py:38 | On one character, step 2 keeps a word character, a whitespace character or `-`, so `_`, space and `-` survive, and deletes any other character. |
| Dump.DropSpecialConcat | nuldc/dump.py:38 | Step 2 works character by character: on `a + b` it gives its result on `a` followed by its result on `b`. |
| Dump.DropSpecialOfLower | nuldc/dump.py:38 | After deleting what is not `\w`, `\s` or `-` from lower-cased text, only lower-case letters, digits, `-`, `_` and whitespace remain. |
| Dump.DropSpecialKeepsAlnums | nuldc/dump.py:38 | That deletion keeps every letter and digit, in order. |
| Dump.DropSeparators | nuldc/dump.py:39 | One leading run of whitespace, `_` and `-` is removed, and nothing else. |
| Dump.CollapseSeparators | nuldc/dump.py:39 | After collapsing, the text never holds `--`, and a string that does not begin with whitespace, `_` or `-` keeps its first character. |
| Dump.CollapseRun | nuldc/dump.py:39 | A whole run of whitespace, `_` or `-` becomes exactly one `-`. |
| Dump.CollapseOfSlugOrSeparator | nuldc/dump.py:39 | Collapsing leaves only lower-case letters, digits and `-`. |
| Dump.CollapseKeepsAlnums | nuldc/dump.py:39 | Collapsing keeps every letter and digit, in order. |
| Dump.TrimLeadingDashes | nuldc/dump.py:40 | The `^-+` half of the last rewrite. It has no `ensures` of its own. `TrimLeadingDashesIsSuffix` characterises it. |
| Dump.TrimTrailingDashes | nuldc/dump.py:40 | The `-+$` half of the last rewrite, on strings without a final newline, which are the only ones step 3 leaves (`CollapseOfSlugOrSeparator`). It has no `ensures` of its own. `TrimTrailingDashesIsPrefix` characterises it. |
| Dump.TrimDashes | nuldc/dump.py:40 | The last rewrite: delete the leading dashes (`^-+`), then the trailing ones (`-+$`). It has no `ensures` of its own. `TrimDashesIsSlice` characterises it. |
| Dump.TrimLeadingDashesIsSuffix | nuldc/dump.py:40 | `^-+` removes the leading dashes and nothing else. |
| Dump.TrimTrailingDashesIsPrefix | nuldc/dump.py:40 | `-+$` removes the trailing dashes and nothing else. |
| Dump.TrimDashesIsSlice | nuldc/dump.py:40 | Trimming keeps one slice, removes only dashes, and leaves no dash at either end. |
| Dump.Slugify | nuldc/dump.py:33-41 | `slugify` as the four rewrites, in order. It has no `ensures` of its own. `SlugifyIsSlug`, `SlugifyKeepsAlnums`, `SlugifyEmptyIff` and `SlugifyIdempotent` state its alphabet, its letters and digits, its emptiness and its fixed point. `SlugifyJoinsWords` states where its dashes come from. |
| Dump.SlugifyJoinsWords | nuldc/dump.py:37-40 | Two words of lower-case letters and digits, separated by any non-empty run of ASCII whitespace, `_` and `-`, become the two words joined by exactly one `-`. |
| Dump.CollapseJoinsWords | nuldc/dump.py:39 | Step 3 turns the run of separators between two words into one `-` and leaves the words alone. |
| Dump.CollapseAfterWord | nuldc/dump.py:39 | Step 3 leaves a prefix without separators unchanged and goes on after it. |
| Dump.SlugifyOfPlain | nuldc/dump.py:37-38 | Steps 1 and 2 change nothing in a string of lower-case ASCII letters, digits and separators that does not begin or end with whitespace. |
| Dump.SlugifyIsSlug | nuldc/dump.py:33-41 | The output holds only lower-case letters, digits and `-`, so no whitespace and no `_`. It never begins or ends with `-` and never holds `--`. |
| Dump.SlugifyKeepsAlnums | nuldc/dump.py:37-39 | The letters and digits of the output are those of the lower-cased input, in order. |
| Dump.SlugifyEmptyIff | nuldc/dump.py:38-40 | The output is empty exactly when the input has no letter or digit, as for input of only punctuation, whitespace, `_` and `-`. |
| Dump.SlugUnchanged | nuldc/dump.py:33-41 | A slug is its own slug. |
| Dump.SlugifyIdempotent | nuldc/dump.py:33-41 | `slugify(slugify(s)) == slugify(s)`. |
| Dump.CollectionTitle | nuldc/dump.py:73 | `data['data'][0]['collection']['title']` when the lookup succeeds and gives a string, and None where Python raises. It has no `ensures` of its own. `ArchiveBasenameShape` states what it decides. |
| Dump.ArchiveBasename | nuldc/dump.py:73-74 | `f"{slugify(col_title)}-{col_id}"`. It has no `ensures` of its own. `ArchiveBasenameShape` and `ArchiveBasenameOfUntitled` characterise it. |
| Dump.ArchiveBasenameShape | nuldc/dump.py:73-74 | There is a basename exactly when the first record has a string `collection.title`. It is that title's slug (a slug), then `-`, then the collection id. |
| Dump.ArchiveBasenameOfUntitled | nuldc/dump.py:73-74 | A title without letters or digits gives `-` followed by the collection id. |
| Dump.IsLineBreak | nuldc/dump.py:107 | The line ends a text-mode `readline` recognises under universal newlines: `\n` and `\r`, where `\r\n` ends the line at its `\r`. It has no `ensures` of its own. `FirstLine` and `IncrementalQueryRoundTrip` use it. |
| Dump.FirstLine | nuldc/dump.py:107 | `readline` returns the longest prefix with no line break, and stops at a break if there is one. |
| Dump.IncrementalQuery | nuldc/dump.py:105-113 | The query is `*` without a marker file, and otherwise `indexed_at:>=` followed by the stripped first line. It has no `ensures` of its own. `IncrementalQueryShape`, `IncrementalQueryRoundTrip` and `DateStampRoundTrip` characterise it. |
| Dump.IncrementalQueryShape | nuldc/dump.py:105-113 | The query is `*` exactly when there is no marker file. Otherwise it is `indexed_at:>=` and a date part with no line break and no whitespace at either end. |
| Dump.IncrementalQueryRoundTrip | nuldc/dump.py:105-109 | A marker holding a clean value, then nothing or a line break, reads back as `indexed_at:>=` and that value. |
| Dump.DateStampRoundTrip | nuldc/dump.py:96-109 | The `%Y-%m-%d` stamp that `dump_collections` writes reads back as `indexed_at:>=` and that date. |

## Left out

- HTTP and JSON decoding of the pages the walkers fetch (`requests.get(...).json()` at `nuldc/helpers.py:16, 30`): a URL-to-page map stands in for them. The map does not capture time, retries or changing responses.
- The first request of `get_search_results` (`nuldc/helpers.py:37`) is not a lookup in that map. `GetSearchResults` takes its decoded body as the parameter `response`, and `None` there stands for a request that raised. The model does not capture how that body depends on `parameters`.
- `search_url` is ignored by `get_search_results`, which requests the module-level `search` URL (`nuldc/helpers.py:6, 37`). In the model that URL is `SearchEndpoint`, and the parameter `searchUrl` is unused, as in the source.
- Malformed pages are not modelled. A missing `items` or `pagination` key, or an `items` that is not a list, makes Python raise. Depending on the value this is a `TypeError`, `AttributeError`, `KeyError` (`{}[-1]`) or `IndexError` (`''[-1]`). A last item that is not a dict raises `AttributeError` at its `.get` (`nuldc/helpers.py:12, 17`). A non-dict item anywhere else in `items` is never inspected: Python keeps it, and line 21 appends it to the result. The model's `Item` type cannot represent such an item. Pages are records with the fields the walkers read, and a missing `type`, `id` or `next_url` is `None`.
- Helpers.GetAllSearchResults: requires the `next_url` chain to end or break within the fuel `n`. On a cyclic chain Python never returns, and the model does not represent a walk that does not terminate.
- Helpers.GetAllIiif: requires the Collection chain to end or break within the fuel `n`, for the same reason.
- Helpers.GetSearchResults: requires the chain to end within the fuel `n` only on the two branches that walk, for the same reason. When the response shape is not the one the chosen walker reads, the model returns None with the outcome `WrongShape` instead of modelling the exact Python exception.
- Aliasing is not modelled. `get_all_iiif` pops from the start manifest's own `items` list and from each fetched page's list (`nuldc/helpers.py:14, 18`), and other references to those lists would see the pop. The model holds `items` as a value in the `Manifest` object. A fetched page stays an immutable value, and the function `Trim` gives its items after the pop.
- `get_work_by_id` (`nuldc/helpers.py:44-46`) is a one-line HTTP wrapper.
- `nuldc/commandline.py` is argument parsing and printing.
- `save_files`, the thread pool and aggregation request of `dump_collections`, the clock, and the marker-file reads and writes are file and network I/O, concurrency and time. The marker file's contents are a parameter of `IncrementalQuery`, and the date stamp is a parameter of `DateStampRoundTrip`. The `print` calls at `nuldc/dump.py:110, 112` are left out.
- Dump.Slugify: requires ASCII input. Unicode case mapping and the Unicode meaning of `\w` are not modelled. Whitespace uses Python's full `str.isspace` set, in `strip` and in `\s`.
- Dump.TrimTrailingDashes: treats `$` as the end of the string only. Without MULTILINE, Python's `$` also matches just before a final `\n`, so `re.sub(r'^-+|-+$', '', "a-\n")` gives `"a\n"` where the model leaves `"a-\n"`. Inside `slugify` this never arises, because step 3 turns every newline into `-` (`CollapseOfSlugOrSeparator`).
- Dump.ArchiveBasename: requires the title, when present, to be ASCII, for the same reason. A missing record or key, or a non-string title, gives None, where Python raises.
- `dump_collection` calls `get_search_results` with four arguments (`nuldc/dump.py:69-71`), which `get_search_results(search_url, parameters, all_results=False)` at `nuldc/helpers.py:35` does not accept. The model therefore takes the fetched records as a parameter of `ArchiveBasename`.
- `aggregate_by`, `save_xml`, `sort_fields_and_values`, `save_as_csv`, `normalize_format`, `get_nested_field` and `get_collection_by_id` are called or imported but not defined in `nuldc/helpers.py` or `nuldc/dump.py`. They are not part of this model.
- Test behaviour that the code does not have is not modelled. `tests/test_nuldc.py:91, 100` pass extra page-ceiling arguments. `tests/test_nuldc.py:121-128` targets a later signature `(search_url, model, parameters)` and expects the first page back. Against `nuldc/helpers.py:35` that call passes `'works'` as `parameters` and a truthy dict as `all_results`, so it raises at line 37, because the mock does not serve that address, and it would raise at line 39 if the request succeeded. `get_search_results` (`nuldc/helpers.py:35-42`) returns None whenever `all_results` is false, and `Helpers.GetSearchResults` follows the code.
