# dtsh query engine, modelled in Dafny

This project models the query engine of dtsh, the devicetree shell. The shell
browses a devicetree: a tree of nodes named by paths such as
`/soc/i2c@40003000`. Each node carries a status, labels, registers,
interrupts and an optional binding. The engine answers the shell's queries
over that tree. The model covers:

- **Path algebra** (`DTPath`). Splitting, base names, path-name checks,
  normalisation with the root as its own parent, and absolute paths. Names
  follow sections 2.2.1 and 2.2.3 of the Devicetree Specification.
- **The older string resolver** (`DtshPath`). `nodename`, `dirname`,
  `path_concat` and `realpath`, plus a `Dtsh` class whose current working
  path `cd` updates.
- **Nodes** (`Nodes`). Immutable node records and the tree over them: parent,
  child lookup, `find`, register size and tail.
- **Criteria** (`Criteria`, `Patterns`).
  - Text criteria in plain-text mode, where `*` is a wild-card.
  - Integer criteria, existential over multi-valued aspects.
  - The per-aspect haystacks.
  - The criterion chain class with its global OR and NOT flags.
- **Sorting** (`Sorting`). The three-stage node sorter: split into sortable
  and unsortable nodes, sort stably, then place the unsortable part. Also the
  attribute sorters, with list-valued weights.
- **Walking** (`Walking`). The depth-first walk with per-sibling ordering,
  enabled-only pruning and a depth limit. The reverse walk to the root. The
  "comb" walkable built from a set of leaves.
- **Command arguments** (`ShellArgs`, `LongFmt`).
  - Fixed depth.
  - The integer-expression parser `[op] N [unit]`.
  - Order-by keys.
  - Path and property parameters.
  - Long-format specifiers and their parsing, validation and completion.
  - The long-format command's sort, prune, sketch and format choice.
- **Views** (`ModelView`). Size texts with SI units, path names, registers,
  aspect views, in-cell label sorting, the tree layout of a walk, and the
  two-sided view's row synchronisation.
- **DTS-like values** (`DTSUtil`). Integers, bytes, arrays, strings and
  phandles written as in DTS sources.
- **Small parsers**.
  - Output redirections `>` and `>>` with the spaces and overwrite
    policies (`Redirect`).
  - CMake cache entries and CMake's boolean conventions (`CMakeCache`).
  - The lazy loading of binding files and their `include:` lists
    (`YamlFile`).
- **Commands** (`DtshCmd`). Command options, their usage texts, `getopt`
  specs, option lookup, reset, storing parsed arguments, and option
  completion.

Python's string built-ins that the engine relies on live in `PyStr`:
`isspace`, `strip`, `split`, `rfind`, `int()` in base 10 and ASCII case.
`Option` and `Result` live in `Wrappers`.

Where the source changes state step by step, the model does too. There is a
class with fields and `modifies` clauses, and a method with loops and their
invariants. Each such method is proved against a function that specifies
it. This covers the sorter, the criterion chain, the comb, the argument
classes, the tree layout, the redirection, the binding file, the command
and its options, and the shell's working path. The properties the source's comments and
behaviour promise are lemmas about those functions.

The table below has one row for every member that carries a contract of
its own. The specification functions have none: what each computes is
stated by the lemmas and methods about it, in the rows cited here.

- `Walking.Find` (src/dtsh/model.py:1402-1439): `Walking.FindExact`.
- `Walking.WalkAll`, the walk of a node's children in turn (src/dtsh/model.py:1457-1463): `Walking.WalkAllPermutation`, `Walking.WalkComplete`, `Walking.WalkParentsFirst`.
- `Criteria.MatchOne`, one criterion of a chain (src/dtsh/model.py:2220-2227): `Criteria.MatchOneAgrees`, `Criteria.Criteria.Match`.
- `Criteria.TextHaystack` and `Criteria.IntHaystack`, the `get_haystack()` overrides (src/dtsh/modelutils.py:415-553 and 603-670): `Criteria.IfSet`, `Criteria.SetPriorities`, `Criteria.SetPrioritiesMember`, `Criteria.DescriptionLines`.
- `DTSUtil.MkBoolean` (src/dtsh/modelutils.py:815-825): `DTSUtil.MkBooleanLowerStr`.
- `DTSUtil.IntText` (src/dtsh/modelutils.py:845-850): `DTSUtil.IntTextDigits`, `DTSUtil.MkInt`.
- `DTSUtil.MkBytes` (src/dtsh/modelutils.py:865-876): `DTSUtil.MkBytesDecodes`, `DTSUtil.MkBytesEmpty`.
- `DTSUtil.MkArray` (src/dtsh/modelutils.py:900-919): `DTSUtil.MkArrayDecodes`, `DTSUtil.MkArrayListSnoc`.
- `DTSUtil.MkStringArray` (src/dtsh/modelutils.py:921-931): `DTSUtil.MkStringArrayGrows`.
- `ShellArgs.ParseDepth` (src/dtsh/shellutils.py:198-212): `ShellArgs.ParseDepthDecimal`, `ShellArgs.ParseDepthNegative`, `ShellArgs.FixedDepthArg.Parsed`.
- `ShellArgs.UnitFactor` (src/dtsh/shellutils.py:296-304): `ShellArgs.UnitFactorTable`, `ShellArgs.UnitFactorChars`.
- `ShellArgs.OrderByKey`, the `DTSH_NODE_ORDER_BY` table (src/dtsh/shellutils.py:718-740): `ShellArgs.OrderByTable`, `ShellArgs.OrderByArg.Parsed`.
- `ShellArgs.Message` and `LongFmt.Message` hold the message texts of the errors raised, as the source's `raise` statements word them. `ShellArgs.UnknownUnitLowered` pins one of them; the others have no lemma of their own.
- `CMakeCache.Collect` and `CMakeCache.Load` (src/dtsh/dts.py:496-511): `CMakeCache.CollectFails`, `CMakeCache.CollectLastWins`, `CMakeCache.LoadFails`, `CMakeCache.LoadLastWins`.
- `Sorting.WeightOf` (src/dtsh/modelutils.py:85-128): `Sorting.ListWeight`, `Sorting.GravityOf`.
- `Sorting.SortSpec` (src/dtsh/model.py:2125-2146): `Sorting.SortPermutes`, `Sorting.SortAscending`, `Sorting.SortDescending`, `Sorting.NodeSorter.Sort`.
- `DtshCmd.Completions` (src/dtsh/dtsh.py:366-398): `DtshCmd.CompletionsDash`, `DtshCmd.CompletionsLong`, `DtshCmd.DtshCommand.AutocompleteOption`.
- `LongFmt.ColumnOf`, the `DTSH_NODE_FMT_SPEC` lookup (src/dtsh/rich/shellutils.py:352-439): `LongFmt.SpecTable`, `LongFmt.SpecKeys`.
- `LongFmt.IsValid` (src/dtsh/rich/shellutils.py:150-160): `LongFmt.ParseValid`.
- `LongFmt.Autocomp` (src/dtsh/rich/shellutils.py:190-206): `LongFmt.AutocompSpec`.
- `ModelView.MkHex` and `ModelView.SizeSpec` (src/dtsh/rich/modelview.py:154-196): `ModelView.SizeSpecExact`, `ModelView.SIPowerUnit`, `ModelView.MkSize`, `ModelView.MkRegister`.
- `ModelView.CellLabels` (src/dtsh/rich/modelview.py:991-1008): `ModelView.CellLabelsOrder`.
- `ModelView.Branches`, the `branch2tree` map (src/dtsh/rich/modelview.py:727-749): `ModelView.BranchesChildren`, `ModelView.BranchesKeys`, `ModelView.WalkableView.WalkLayout`.
- `Redirect.RealPath` (src/dtsh/io.py:231-234): `Redirect.NewRedirect`, `Redirect.Open`.

## Model

| member | source | states |
|---|---|---|
| Nodes.RegisterSpan | src/dtsh/model.py:692-714 | a register's size defaults to 0 and its address to `sys.maxsize`; the tail is `address + size - 1` for a sized register and the address itself otherwise, so the register spans exactly `size` addresses |
| Nodes.ParentOfChild | src/dtsh/model.py:1275-1286 | in a well-formed tree a child's parent path is its parent's path and its base name is its own name |
| Nodes.NamesOfChild | src/dtsh/model.py:82-121 | a child's path is a node path whose split names are its parent's names followed by the child's name |
| Nodes.RootIsOwnParent | src/dtsh/model.py:1094-1096 | the devicetree root is its own parent |
| Nodes.GetChild | src/dtsh/model.py:1347-1361 | `get_child` returns the first child with the requested name; the `KeyError` is raised exactly when no child has that name |
| Nodes.DirnameShorter | src/dtsh/model.py:1481-1486 | above the root, the parent's path is a strictly shorter node path (so walking back terminates) |
| Nodes.RWalk | src/dtsh/model.py:1394-1400 | `rwalk` starts with the node itself |
| Nodes.RWalkStep | src/dtsh/model.py:1481-1486 | from a node other than the root, `rwalk` yields the node and then continues from its parent |
| Nodes.RWalkEndsAtRoot | src/dtsh/model.py:1481-1486 | walking back always ends at the root |
| Nodes.RWalkChild | src/dtsh/model.py:1481-1486 | walking back from a child passes through its parent next |
| DTPath.Split | src/dtsh/model.py:110-121 | `split("")` is `[]`, and an absolute path's first name is `"/"` |
| DTPath.SplitLastName | src/dtsh/model.py:116-121 | a trailing `"/"` never leaves an empty last name (only a path ending in `"//"` can) |
| DTPath.JoinPath | src/dtsh/model.py:124-152 | joining an absolute path resets the chain; otherwise the result starts with the first path and ends with the second |
| DTPath.JoinRooted | src/dtsh/model.py:124-152 | joining a node name under a node path gives a node path |
| DTPath.SplitChild | src/dtsh/model.py:82-152 | joining a node name under a node path appends exactly that name to the split |
| DTPath.CheckPathName | src/dtsh/model.py:317-329 | `check_path_name` succeeds exactly for a path that starts with `"/"` and contains no `"."`, and otherwise raises with the path |
| DTPath.CheckedPathNames | src/dtsh/model.py:317-329 | a checked path name splits into `"/"` and names that are never `"."` or `".."` |
| DTPath.Normpath | src/dtsh/model.py:155-187 | `normpath` never returns the empty string (the empty path normalises to `"."`) and keeps an absolute path absolute |
| DTPath.NormFoldRooted | src/dtsh/model.py:155-187 | under a root, `".."` never survives normalisation |
| DTPath.NormalFormFixed | src/dtsh/model.py:155-187 | a path already in normal form is a fixed point of `normpath` |
| DTPath.NormpathIdempotent | src/dtsh/model.py:155-187 | normalising an absolute path twice is the same as normalising it once |
| DTPath.RootIsOwnParent | src/dtsh/model.py:171-172 | the root is its own parent for normalisation: `normpath("/../a") == normpath("/a")` |
| DTPath.Abspath | src/dtsh/model.py:190-211 | `abspath` raises exactly when the working branch fails `check_path_name`, and is otherwise `normpath(join(pwd, path))` |
| DTPath.AbspathNormal | src/dtsh/model.py:190-211 | `abspath` always returns an absolute path already in normal form |
| DTPath.RStripSlashes | src/dtsh/model.py:240-278 | `rstrip('/')` removes exactly the trailing run of `"/"` |
| DTPath.PosixSplit | src/dtsh/model.py:277 | the tail of a split has no `"/"` and ends the path |
| DTPath.Dirname | src/dtsh/model.py:240-278 | `dirname` never returns the empty string |
| DTPath.Basename | src/dtsh/model.py:281-314 | `basename` has no `"/"` and ends the path |
| DTPath.DirnameNoSlash | src/dtsh/model.py:262-266 | a path without `"/"` has dirname `"."` and is its own base name |
| DTPath.DirnameBasenameChild | src/dtsh/model.py:240-314 | `dirname` and `basename` take a node name joined under a node path apart again |
| DTPath.DirnameRoot | src/dtsh/model.py:256-260 | `dirname("/")` is `"/"` and `basename("/")` is empty |
| Sorting.LeqTotalOrder | src/dtsh/modelutils.py:101-116 | the weight order the sorters compare with is reflexive, total, transitive and antisymmetric |
| Sorting.MinW | src/dtsh/modelutils.py:114-115 | Python's `min()` of a list-valued gravity is an element of the list no greater than any other |
| Sorting.MaxW | src/dtsh/modelutils.py:114-115 | Python's `max()` of a list-valued gravity is an element of the list no smaller than any other |
| Sorting.GravityOf | src/dtsh/modelutils.py:85-99 | a sortable node's list-valued gravity is never empty (the register, interrupt and vendor gravities at lines 179-306 included) |
| Sorting.ListWeight | src/dtsh/modelutils.py:101-116 | a list-valued weight is the list's minimum when ascending and its maximum when reversed |
| Sorting.SelectMember | src/dtsh/modelutils.py:62-83 | a node is in the sortable list exactly when it is an input node whose attribute is neither `None` nor `[]` |
| Sorting.RejectMember | src/dtsh/modelutils.py:62-83 | a node is in the unsortable list exactly when it is an input node whose attribute is `None` or `[]` |
| Sorting.PartitionPermutes | src/dtsh/modelutils.py:62-83 | every input node lands in exactly one of the two lists |
| Sorting.SplitSortableUnsortable | src/dtsh/modelutils.py:62-83 | the loop appends each node to the sortable or the unsortable list, in input order, and the two lists together are a permutation of the input |
| Sorting.Insert | src/dtsh/model.py:2134 | stable insertion adds exactly one node |
| Sorting.StableSort | src/dtsh/model.py:2134 | `list.sort(key=weight)` returns a permutation of its input |
| Sorting.StableSortSorted | src/dtsh/model.py:2134 | the sort orders the nodes by weight |
| Sorting.StableSortStable | src/dtsh/model.py:2134 | the sort is stable: nodes of equal weight keep their input order |
| Sorting.Reverse | src/dtsh/model.py:2136-2138 | `list.reverse()` puts element `k` at position `n - 1 - k` |
| Sorting.ReverseMultiset | src/dtsh/model.py:2136-2138 | reversing permutes |
| Sorting.SortPermutes | src/dtsh/model.py:2125-2146 | `sort` returns a permutation of its input, in both directions |
| Sorting.SortAscending | src/dtsh/model.py:2125-2146 | ascending: the sortable nodes come first, in weight order with equal weights in input order, followed by the unsortable nodes in input order |
| Sorting.SortDescending | src/dtsh/model.py:2125-2146 | reversed: the unsortable nodes come first in reverse input order, then the sortable nodes in descending weight order, equal weights in reverse input order |
| Sorting.NodeSorter.constructor | src/dtsh/modelutils.py:54-60 | a new sorter holds its key and the ascending direction |
| Sorting.NodeSorter.Sort | src/dtsh/modelutils.py:121-128 | `sort` stores the direction the weight function relies on, then returns the three-stage sort of the input |
| Walking.EnabledNodes | src/dtsh/model.py:1458-1459 | pruning keeps exactly the enabled nodes |
| Walking.Arrange | src/dtsh/model.py:1460-1463 | sibling ordering (sorter, reversed DTS order or DTS order) only permutes the children |
| Walking.Children | src/dtsh/model.py:1457-1463 | a walk only visits children of the node |
| Walking.Walk | src/dtsh/model.py:1441-1479 | the walk is empty exactly when `enabled_only` is set and the node is disabled, and otherwise starts with the node |
| Walking.WalkEnabled | src/dtsh/model.py:1445-1447 | with `enabled_only`, every yielded node is enabled: a disabled node hides its whole branch |
| Walking.WalkLevels | src/dtsh/model.py:1451-1454 | with `fixed_depth` d > 0, the walk goes no more than d levels below its start |
| Walking.WalkDepth | src/dtsh/model.py:1451-1454 | with `fixed_depth` d > 0, no yielded node's path is more than d levels deeper than the start |
| Walking.WalkParentsFirst | src/dtsh/model.py:1441-1479 | every node after the first is yielded after its parent |
| Walking.WalkOrderFree | src/dtsh/model.py:1460-1463 | sorting only permutes siblings: whatever the order, the walk yields the same nodes |
| Walking.WalkComplete | src/dtsh/model.py:1441-1479 | without pruning or depth limit, the walk yields exactly the nodes of the branch |
| Walking.AllChildrenVisited | src/dtsh/model.py:1457-1463 | without pruning, every child is visited |
| Walking.FindExact | src/dtsh/model.py:1402-1439 | `find` returns exactly the walked nodes the criterion accepts, each as often as walked, sorted or reversed |
| Walking.CombClosed | src/dtsh/modelutils.py:686-698 | the comb holds the whole way from each leaf back to the root |
| Walking.CombWalk | src/dtsh/modelutils.py:722-742 | the comb walk is empty exactly for a node outside the comb, and otherwise starts with it |
| Walking.CombWalkExact | src/dtsh/modelutils.py:722-742 | the comb walk yields exactly the comb nodes reachable through comb nodes |
| Walking.CombWalkBranch | src/dtsh/modelutils.py:686-742 | for a comb built from leaves, the walk from a comb node yields exactly the comb nodes of its branch |
| Walking.CombWalkParentsFirst | src/dtsh/modelutils.py:722-742 | the comb walk yields every node after its parent |
| Walking.Comb.constructor | src/dtsh/modelutils.py:686-698 | the comb is the set of nodes on the way back from each leaf to the root |
| Walking.CombNoLeaves | src/dtsh/modelutils.py:686-742 | with no leaves, the comb and its walk are empty |
| Criteria.IfSet | src/dtsh/modelutils.py:415-553 | a text haystack built from an optional attribute holds that attribute exactly when it is set and non-empty, and nothing else |
| Criteria.AnyText | src/dtsh/modelutils.py:372-376 | a text criterion matches a haystack iff its compiled pattern matches at least one of the haystack's strings |
| Criteria.BindingMatchAsWritten | src/dtsh/modelutils.py:462-482 | the binding criterion as the code compares the raw pattern with ".*": it only ever matches a node that has a binding |
| Criteria.BindingMatch | src/dtsh/modelutils.py:455-482 | the binding criterion as documented: only nodes with a binding match, and the pattern "*" matches every node that has one |
| Criteria.BindingStarMissesBareBinding | src/dtsh/modelutils.py:462-466 | as written, "*" misses a node whose binding has neither compatible string nor description, although the class documents that it matches it |
| Criteria.BindingMatchAgrees | src/dtsh/modelutils.py:462-466 | for every pattern other than "*" the documented and as-written binding criteria agree |
| Criteria.MatchOneAgrees | src/dtsh/modelutils.py:455-466 | a chain element, which runs the binding criterion as the code does, agrees with its documented reading on every criterion except a binding criterion on "*" |
| Criteria.MatchOneDocumentedStar | src/dtsh/modelutils.py:455-460 | as documented, a binding criterion on "*" selects exactly the nodes that have a binding |
| Criteria.SetPriorities | src/dtsh/modelutils.py:631-638 | the IRQ-priority haystack is never longer than the node's interrupt list |
| Criteria.SetPrioritiesMember | src/dtsh/modelutils.py:631-638 | a priority is in the haystack iff some interrupt carries it; interrupts without a priority are skipped |
| Criteria.AnyInt | src/dtsh/modelutils.py:596-601 | an integer criterion matches iff some haystack integer satisfies `hay OP value`, any integer when no value is given |
| Criteria.AnyIntNoValue | src/dtsh/modelutils.py:579-601 | without a value the criterion asks only for a non-empty haystack |
| Criteria.AnyIntDefaultEquality | src/dtsh/modelutils.py:579-601 | the operator defaults to equality: without one the criterion asks for the value to be in the haystack |
| Criteria.TextEmptyHaystack | src/dtsh/modelutils.py:378-387 | a text criterion never matches a node whose haystack is empty |
| Criteria.TextSearch | src/dtsh/modelutils.py:372-409 | a star-free pattern is a search: on one-line haystacks it matches iff, up to case when ignoring it, it is a substring of one of them |
| Criteria.DescriptionLines | src/dtsh/modelutils.py:540-547 | the description haystack is the description's lines, none of which holds a newline |
| Criteria.AnyMatch | src/dtsh/model.py:2220-2223 | an OR chain matches iff some criterion in it matches |
| Criteria.AllMatch | src/dtsh/model.py:2224-2227 | an AND chain matches iff every criterion in it matches |
| Criteria.Criteria.constructor | src/dtsh/model.py:2185-2201 | a new chain holds the given criteria, conjunction/disjunction flag and negation flag |
| Criteria.Criteria.AppendCriterion | src/dtsh/model.py:2203-2209 | appending adds the criterion at the end of the chain and changes nothing else |
| Criteria.Criteria.Match | src/dtsh/model.py:2211-2229 | a chain matches iff some (OR) or every (AND) criterion matches, inverted for a negative chain; an empty AND chain matches every node; each criterion matches as the code runs it, the binding criterion included |
| Criteria.AppendNarrowsOrWidens | src/dtsh/model.py:2203-2229 | appending a criterion to an AND chain narrows it to the nodes the new criterion matches; appending to an OR chain widens it by those nodes |
| Patterns.Compile | src/dtsh/modelutils.py:395-409 | a pattern with a `*` compiles to an anchored glob of its characters; one without becomes a search with `.*` on both sides; the IGNORECASE flag is kept |
| Patterns.Fold | src/dtsh/modelutils.py:395-409 | case folding keeps the length of the string |
| Patterns.LitsMatchFold | src/dtsh/modelutils.py:395-409 | literal matching with or without IGNORECASE is equality of the case-folded strings |
| Patterns.ContainsSubAt | src/dtsh/modelutils.py:406-408 | Python's `in` on strings holds iff the pattern occurs at some index |
| Patterns.SearchMatch | src/dtsh/modelutils.py:405-408 | a star-free pattern matches iff it occurs, up to case, after a stretch that crosses no newline |
| Patterns.SearchIsSubstring | src/dtsh/modelutils.py:405-408 | on a line without newline, a star-free pattern matches iff it is a (case-folded) substring |
| Patterns.StarMatchesAnyLine | src/dtsh/modelutils.py:400-404 | the bare pattern `*` accepts every string without a newline, except possibly a final one |
| Patterns.GlobHead | src/dtsh/modelutils.py:400-404 | in a glob `a*b` the star-free head must match the start of the string, the star swallows a newline-free stretch and the rest matches what is left |
| Patterns.GlobHeadTail | src/dtsh/modelutils.py:400-404 | on a line, `a*b` with star-free head and tail matches iff the string starts with `a`, ends with `b` and is long enough for both |
| Patterns.GlobExample | src/dtsh/modelutils.py:400-404 | "i*c" accepts "i2c" |
| DTSUtil.MkBooleanLowerStr | src/dtsh/modelutils.py:815-825 | a boolean prints as Python's `str()` of it in lower case, "true" exactly for true |
| DTSUtil.MkString | src/dtsh/modelutils.py:853-863 | a string value prints as itself between double quotes |
| DTSUtil.Cell | src/dtsh/modelutils.py:994-995 | a cell is the content between "< " and " >" |
| DTSUtil.MkInt | src/dtsh/modelutils.py:827-850 | the shifting loop counts the value's bytes, at least one, and the result is the value in hexadecimal with two digits per byte, in a cell iff asked |
| DTSUtil.ShiftStaysNegative | src/dtsh/modelutils.py:840-843 | Python's `x >>= 8` keeps a negative value negative, so the counting loop cannot end on it |
| DTSUtil.HexValueDigits | src/dtsh/modelutils.py:846-847 | the hexadecimal writing of a number reads back as that number |
| DTSUtil.HexValueZeros | src/dtsh/modelutils.py:846-847 | leading zeros do not change a hexadecimal value |
| DTSUtil.HexValuePad | src/dtsh/modelutils.py:846-847 | zero-padding to a width does not change the value |
| DTSUtil.HexDigitsByte | src/dtsh/modelutils.py:838-847 | each byte beyond the first adds two hexadecimal digits |
| DTSUtil.HexWidth | src/dtsh/modelutils.py:838-847 | the number of hexadecimal digits fits in two per counted byte, and needs at least all but one of them |
| DTSUtil.HexDigitsLower | src/dtsh/modelutils.py:846-847 | the `x` format writes lower-case digits |
| DTSUtil.PaddedDigits | src/dtsh/modelutils.py:838-847 | the padded digits are exactly two per byte, lower case, and read back as the value |
| DTSUtil.IntTextDigits | src/dtsh/modelutils.py:827-850 | the integer text is "0x" and two lower-case digits per byte (at least two) reading back as the value; as a cell it is exactly that text in a cell |
| DTSUtil.HexValUpper | src/dtsh/modelutils.py:873 | an upper-case hexadecimal digit reads back as its value |
| DTSUtil.ByteText | src/dtsh/modelutils.py:873 | a byte prints as two hexadecimal digits, no space, reading back as the byte |
| DTSUtil.ByteTexts | src/dtsh/modelutils.py:873 | one text per byte |
| DTSUtil.MkBytesDecodes | src/dtsh/modelutils.py:865-876 | a byte string prints in "[ " … " ]" and the text between splits at spaces into one part per byte, each reading back as that byte |
| DTSUtil.MkBytesEmpty | src/dtsh/modelutils.py:865-876 | the empty byte string prints as "[  ]" |
| DTSUtil.IntTexts | src/dtsh/modelutils.py:900-919 | one integer text per array item |
| DTSUtil.IntTextNoSpace | src/dtsh/modelutils.py:827-850 | an integer text holds no space, so arrays can be split back |
| DTSUtil.MkArrayDecodes | src/dtsh/modelutils.py:900-916 | the single-cell array splits at spaces into one "0x" integer per item, each reading back as that item |
| DTSUtil.MkArrayListSnoc | src/dtsh/modelutils.py:917-919 | the list form is the integer cells joined by ", ": one more item adds ", " and its cell |
| DTSUtil.Quoted | src/dtsh/modelutils.py:921-931 | one quoted string per item |
| DTSUtil.MkStringArrayGrows | src/dtsh/modelutils.py:921-931 | a string array prints its quoted strings joined by ", ": one string prints as itself quoted, each further string adds ", " and its quoted form |
| ShellArgs.ParseDepthDecimal | src/dtsh/shellutils.py:198-212 | every non-negative depth written in decimal parses back to itself |
| ShellArgs.ParseDepthNegative | src/dtsh/shellutils.py:209-210 | a negative depth is refused with the negative value in the error |
| ShellArgs.FixedDepthArg.constructor | src/dtsh/shellutils.py:177-178 | a new `--fixed-depth` argument has neither raw value nor depth |
| ShellArgs.FixedDepthArg.Depth | src/dtsh/shellutils.py:180-188 | the depth defaults to 0 (unlimited) when unset |
| ShellArgs.FixedDepthArg.Reset | src/dtsh/shellutils.py:190-196 | reset clears the raw value and the depth, so the depth is back to 0 |
| ShellArgs.FixedDepthArg.Parsed | src/dtsh/shellutils.py:198-212 | the raw value is recorded; an unset or empty value changes nothing else; otherwise the depth is the parsed integer, or the error is raised and the depth is kept |
| ShellArgs.Munch | src/dtsh/shellutils.py:248-250 | a greedy character-class run splits its input into the longest prefix of the class and the rest |
| ShellArgs.MunchOf | src/dtsh/shellutils.py:248-250 | a run of class characters followed by a non-class character is split exactly there |
| ShellArgs.Scan | src/dtsh/shellutils.py:248-250 | a match of the integer-expression regex yields an operator group of operator characters (empty iff the input does not start with one), a non-empty integer group and a unit group of unit characters |
| ShellArgs.ScanSound | src/dtsh/shellutils.py:248-250 | only input made of the regex's characters, and a final newline, can match |
| ShellArgs.ScanRejects | src/dtsh/shellutils.py:248-250 | input holding another character does not match |
| ShellArgs.ScanGroups | src/dtsh/shellutils.py:248-250 | an operator, an integer and a unit written one after the other scan back into those groups |
| ShellArgs.OpText | src/dtsh/modelutils.py:567-574 | every operator's text is in the operator table and maps back to that operator |
| ShellArgs.OpOfExact | src/dtsh/modelutils.py:567-574 | the table holds exactly the six operator texts |
| ShellArgs.PyIntBase0 | src/dtsh/shellutils.py:290-294 | `int(…, base=0)` succeeds only on non-empty text |
| ShellArgs.PyIntBase0Decimal | src/dtsh/shellutils.py:290-294 | `int(…, base=0)` reads back a decimal numeral |
| ShellArgs.PyIntBase0LowerHex | src/dtsh/shellutils.py:290-294 | `int(…, base=0)` reads "0x" and lower-case hexadecimal digits as their value |
| ShellArgs.FromGroups | src/dtsh/shellutils.py:279-306 | a successful parse of the groups always has a value, and an operator exactly when the operator group is set |
| ShellArgs.FromGroupsRefusals | src/dtsh/shellutils.py:279-304 | the refusals come in the source's order: an operator outside the table, then a number `int(…, base=0)` refuses, then an unknown unit, reported in lower case |
| ShellArgs.UnknownUnitLowered | src/dtsh/shellutils.py:296-304 | the unit of "1 KK" is refused as "kk" |
| ShellArgs.ParseIntExpr | src/dtsh/shellutils.py:267-308 | "*" parses to the criterion with neither operator nor value; any other successful parse has a value, and an operator iff the input starts with an operator character |
| ShellArgs.ParseIntExprInvalid | src/dtsh/shellutils.py:307-308 | an expression holding a character outside the grammar is refused as an invalid integer expression |
| ShellArgs.ParseIntExprRoundTrip | src/dtsh/shellutils.py:267-308 | an operator text followed by a decimal number parses to the criterion with that operator and number |
| ShellArgs.UnitFactorChars | src/dtsh/shellutils.py:296-304 | a unit the table accepts is made of unit characters and starts with k or m |
| ShellArgs.UnitFactorTable | src/dtsh/shellutils.py:296-304 | k/kb multiply by 1024 and m/mb by 1024², in any case, and nothing else is a unit |
| ShellArgs.ParseIntExprUnit | src/dtsh/shellutils.py:267-308 | a decimal number with no operator and a known unit or none parses to the equality-default criterion on the number scaled by the unit |
| ShellArgs.ParseIntExprScanned | src/dtsh/shellutils.py:277-306 | an expression other than "*" that matches the regex parses as its groups do |
| ShellArgs.FromGroupsDecimal | src/dtsh/shellutils.py:279-306 | groups holding a decimal number and a known unit or none give the number scaled by the unit |
| ShellArgs.ParseIntExprIntText | src/dtsh/shellutils.py:267-308 | a value as the DTS formatter prints it ("0x" and padded hexadecimal) parses back to that value |
| ShellArgs.ParseIntExprLowerHex | src/dtsh/shellutils.py:267-308 | "0x" and lower-case hexadecimal digits parse to their value |
| ShellArgs.ParseIntExprBadOperator | src/dtsh/shellutils.py:280-286 | a run of operator characters outside the table, such as "=>", is refused as an invalid operator |
| ShellArgs.IntCriterionArg.constructor | src/dtsh/shellutils.py:258-265 | a new integer-criterion argument has neither raw value nor criterion |
| ShellArgs.IntCriterionArg.Reset | src/dtsh/shellutils.py:310-316 | reset clears the raw value and the criterion |
| ShellArgs.IntCriterionArg.Parsed | src/dtsh/shellutils.py:267-308 | the raw value is recorded; an unset or empty value changes nothing else; otherwise the criterion is the parsed one, or the error is raised and the criterion is kept |
| ShellArgs.OrderByTable | src/dtsh/shellutils.py:718-740 | each sort key has exactly one one-letter specifier and each specifier one sort key |
| ShellArgs.OrderByArg.constructor | src/dtsh/shellutils.py:756-757 | a new `--order-by` argument has neither raw value nor sorter |
| ShellArgs.OrderByArg.Reset | src/dtsh/shellutils.py:759-762 | reset clears the raw value and the sorter |
| ShellArgs.OrderByArg.Parsed | src/dtsh/shellutils.py:764-771 | a set key in the table selects its sorter; a key outside it is refused and the sorter is kept; an unset key changes nothing else |
| ShellArgs.Paths | src/dtsh/shellutils.py:841-847 | the path parameter is the given paths, or the single empty path standing for the current branch |
| ShellArgs.XPath | src/dtsh/shellutils.py:905-923 | an extended path splits at its last "$" into a path and a property name without "$"; without "$" the property is absent; an unset parameter is ("", absent) |
| ShellArgs.XPathRoundTrip | src/dtsh/shellutils.py:905-923 | a path and a "$"-free property name joined by "$" split back into the two |
| ShellArgs.WithPrefix | src/dtsh/shellutils.py:955-960 | the selected names are exactly the given names that start with the prefix |
| ShellArgs.XSplitProps | src/dtsh/shellutils.py:952-971 | no "$" gives no property list; a trailing "*" selects every property whose name starts with what precedes it; any other name selects that property, and is refused when the node has none of that name |
| LongFmt.SpecTable | src/dtsh/rich/shellutils.py:352-439 | the format table maps each one-letter specifier to one column and each column has one specifier |
| LongFmt.SpecKeys | src/dtsh/rich/shellutils.py:352-439 | the keys of the table are exactly the listed specifiers |
| LongFmt.Parse | src/dtsh/rich/shellutils.py:136-148 | a successful parse gives the column of each specifier, in order; a failure reports the first character that is not a specifier |
| LongFmt.ParseValid | src/dtsh/rich/shellutils.py:136-160 | `is_valid()` holds exactly when `parse()` succeeds |
| LongFmt.ParseSpecs | src/dtsh/rich/shellutils.py:136-148 | parsing the specifiers of a list of columns gives those columns back |
| LongFmt.Specs | src/dtsh/rich/shellutils.py:352-439 | the format string of a list of columns has one specifier per column |
| LongFmt.Unused | src/dtsh/rich/shellutils.py:199-204 | the completion keys are exactly the table keys not already in the text, each at most as often as in the table |
| LongFmt.InsertLower | src/dtsh/rich/shellutils.py:199-206 | inserting a key adds exactly that key |
| LongFmt.SortLower | src/dtsh/rich/shellutils.py:199-206 | sorting the keys case-insensitively is a permutation |
| LongFmt.SortLowerSorted | src/dtsh/rich/shellutils.py:199-206 | the sorted keys are in case-insensitive order |
| LongFmt.AutocompSpec | src/dtsh/rich/shellutils.py:190-206 | completion offers, in case-insensitive order, exactly the specifiers not yet used in a valid format, and nothing for an invalid one |
| LongFmt.LongFmtArg.constructor | src/dtsh/rich/shellutils.py:171-172 | a new `--format` argument has neither raw value nor columns |
| LongFmt.LongFmtArg.Reset | src/dtsh/rich/shellutils.py:179-182 | reset clears the raw value and the columns |
| LongFmt.LongFmtArg.Parsed | src/dtsh/rich/shellutils.py:184-188 | the raw value is recorded; a set format string must parse, giving its columns, and on error the columns are kept; an unset or empty one changes nothing else |
| LongFmt.CommandSort | src/dtsh/rich/shellutils.py:284-298 | the command's arrangement is a permutation of the nodes: the sorter's order when an order is set, else the reversed nodes when reverse is set, else the nodes as given |
| LongFmt.Prune | src/dtsh/rich/shellutils.py:300-310 | pruning keeps, in order, exactly the enabled nodes when only enabled nodes are asked for, and every node otherwise |
| LongFmt.GetSketch | src/dtsh/rich/shellutils.py:312-326 | the sketch carries the sorter and reverse flag; the layout changes only from list view to multi-line list, and only when that preference is set |
| LongFmt.GetLongfmt | src/dtsh/rich/shellutils.py:328-349 | the format is the parsed columns when there are some, else the default format's columns when it is usable, else the path column alone; never empty |
| LongFmt.GetLongfmtDefault | src/dtsh/rich/shellutils.py:328-349 | a valid default format gives one column per specifier, in order, when none was parsed |
| ModelView.Pow1024 | src/dtsh/rich/modelview.py:178 | a unit size `1024 ** k` is at least 1 |
| ModelView.Shr10Bounds | src/dtsh/rich/modelview.py:183-184 | `size >> 10k` times the unit size is the size less a remainder smaller than the unit size |
| ModelView.SIPowerRange | src/dtsh/rich/modelview.py:172-176 | the counted power is that of the largest power of 1024 not above the size, so the quotient is between 1 and 1023 |
| ModelView.SIPowerUnit | src/dtsh/rich/modelview.py:64-70 | a size has an SI unit iff it is below 1024⁴ bytes |
| ModelView.SizeSpecExact | src/dtsh/rich/modelview.py:170-189 | an SI size is shown as the quotient and unit when it divides exactly, otherwise as quotient plus a remainder strictly between 0 and the unit size; either way it adds up to the size |
| ModelView.MkSize | src/dtsh/rich/modelview.py:154-196 | the shifting loop computes the size view: hexadecimal (upper case when preferred) without SI sizes, else the SI quotient, remainder and unit |
| ModelView.MkPathName | src/dtsh/rich/modelview.py:72-107 | an invalid path name is refused as `check_path_name` refuses it; the root is shown as "/" alone |
| ModelView.RootedParent | src/dtsh/rich/modelview.py:84-86 | a rooted path other than the root is its rooted parent joined with a node name |
| ModelView.MkPathNameText | src/dtsh/rich/modelview.py:72-107 | every valid path name is shown as a branch and a node name that reassemble it |
| ModelView.MkRegister | src/dtsh/rich/modelview.py:305-313 | a register shows its address, and its size view exactly when the size is not zero |
| ModelView.MkPlaceholder | src/dtsh/rich/modelview.py:419-437 | the placeholder of a layout is the list or tree preference, and none when that preference is empty |
| ModelView.MkView | src/dtsh/rich/modelview.py:518-553 | no texts and no placeholder make no view; one text is shown alone; two or more make a grid |
| ModelView.MkViewShows | src/dtsh/rich/modelview.py:518-553 | a view shows every text of the aspect, in order, or else the placeholder alone, or nothing |
| ModelView.InsertStr | src/dtsh/rich/modelview.py:998-999 | inserting a label adds exactly that label |
| ModelView.SortStrs | src/dtsh/rich/modelview.py:998-999 | `sorted()` of labels is a permutation |
| ModelView.SortStrsSorted | src/dtsh/rich/modelview.py:998-999 | `sorted()` of labels is in ascending order |
| ModelView.CellLabelsOrder | src/dtsh/rich/modelview.py:991-1001 | in-cell sorting only reorders the labels: ascending (descending when reversed) for the label sorter, unchanged for every other sorter |
| ModelView.LabelTexts | src/dtsh/rich/modelview.py:991-1008 | no labels give no text; a multi-line list gives one text per label in cell order; any other layout one joined text |
| ModelView.PathSetMember | src/dtsh/rich/modelview.py:727-749 | a path is walked iff some node of the walk has it |
| ModelView.BranchesKeys | src/dtsh/rich/modelview.py:727-749 | every walked node, and nothing else, is a branch of the laid out tree |
| ModelView.AfterParentPrefix | src/dtsh/rich/modelview.py:746-749 | a prefix of a walk still has every node after its parent |
| ModelView.NoChildOfUnwalked | src/dtsh/rich/modelview.py:746-749 | no node of a walk hangs under a path that was not walked |
| ModelView.BranchesChildren | src/dtsh/rich/modelview.py:727-749 | in a walk with parents first and distinct paths, the branch of each walked node holds exactly its children's paths, in walk order |
| ModelView.LastNode | src/dtsh/rich/modelview.py:746-749 | the last node of such a walk is new, its parent was walked before it, and laying it out hangs it under that parent |
| ModelView.BranchesRoot | src/dtsh/rich/modelview.py:737-744 | the tree of a one-node walk is its anchor alone |
| ModelView.BranchesStep | src/dtsh/rich/modelview.py:746-749 | at each step of the layout the next node's parent is already a branch (so `branch2tree[node.parent]` finds it) and the node is hung under it |
| ModelView.ParentWalked | src/dtsh/rich/modelview.py:747 | the parent of each node after the first was walked before it |
| ModelView.BranchesSnoc | src/dtsh/rich/modelview.py:748 | walking one more node hangs it under its parent |
| ModelView.WalkableView.constructor | src/dtsh/rich/modelview.py:823-836 | a new tree view has no anchor and no branches |
| ModelView.WalkableView.WalkLayout | src/dtsh/rich/modelview.py:702-749 | the layout yields the walk; an empty walk leaves the tree as it was; otherwise the tree is anchored at the first node and its branches are those of the walk |
| ModelView.TwoSidedLayout | src/dtsh/rich/modelview.py:880-921 | the left side is a fresh tree laid out from the walk and the right side gets one row per yielded node, in the same order |
| ModelView.TwoSidedRows | src/dtsh/rich/modelview.py:916-919 | the left tree and the right list show the same nodes |
| Redirect.ParseRedir2 | src/dtsh/io.py:178-208 | a redirection not starting with ">" is refused as invalid; otherwise ">>" means append, the target is the stripped rest, and an empty target is refused |
| Redirect.ParseRedir2RoundTrip | src/dtsh/io.py:178-208 | a stripped target written after ">>", or after ">" when it does not itself start with ">", parses back to it and its mode |
| Redirect.NewRedirect | src/dtsh/io.py:214-246 | parse errors pass through; a target with spaces is refused under the no-spaces preference; the path is the real path of the target; append mode survives only for an existing file, and an existing file is refused under the no-overwrite preference |
| Redirect.NoOverwrite | src/dtsh/io.py:236-238 | an existing target is refused under the no-overwrite preference, whatever the mode |
| Redirect.AppendOnlyExisting | src/dtsh/io.py:236-246 | a redirection appends iff its file exists and ">>" was asked for |
| CMakeCache.FirstType | src/dtsh/dts.py:617-623 | the type alternative found is one of those tried and its name and "=" start the text |
| CMakeCache.TypeAt | src/dtsh/dts.py:617-623 | a type found at the start of the text is followed by "=" |
| CMakeCache.NameKey | src/dtsh/dts.py:619 | the seven type names are told apart by their first and third letters |
| CMakeCache.NamesPrefixFree | src/dtsh/dts.py:619 | no type name with its "=" starts another type's name with its "=", so the alternative order does not matter |
| CMakeCache.TypeAtName | src/dtsh/dts.py:617-623 | a type name followed by "=" is read back as that type |
| CMakeCache.NameEnd | src/dtsh/dts.py:617-623 | the non-greedy name ends at a ':' that a type and "=" follow, and crosses no line break |
| CMakeCache.UpToBreak | src/dtsh/dts.py:620 | the value group is the text up to the first line break |
| CMakeCache.ToBool | src/dtsh/dts.py:674-696 | a value that is not a boolean is refused with its upper-case writing |
| CMakeCache.UpperToBool | src/dtsh/dts.py:686-696 | on an upper-case value, a refusal carries that value |
| CMakeCache.ToBoolCaseInsensitive | src/dtsh/dts.py:685 | boolean constants are case-insensitive |
| CMakeCache.ToBoolConstants | src/dtsh/dts.py:686-689 | ON, YES, TRUE and Y in any case are true; OFF, NO, FALSE, N, IGNORE, NOTFOUND and the empty string are false |
| CMakeCache.ToBoolNotFound | src/dtsh/dts.py:690-691 | a value ending in -NOTFOUND, in any case, is false |
| CMakeCache.NumeralNotTrue | src/dtsh/dts.py:686 | a numeral is none of the true constants |
| CMakeCache.NumeralNotFalse | src/dtsh/dts.py:688 | a numeral is none of the false constants |
| CMakeCache.NumeralNotFound | src/dtsh/dts.py:690 | a numeral does not end in -NOTFOUND |
| CMakeCache.ToBoolNumber | src/dtsh/dts.py:692-694 | a decimal number is true exactly when it is not zero |
| CMakeCache.DecodeValue | src/dtsh/dts.py:658-669 | decoding fails exactly for a BOOL entry whose value is not a boolean; FILEPATH and PATH values are kept as strings |
| CMakeCache.FromLine | src/dtsh/dts.py:631-671 | comments and blank lines give no entry; an entry's name is the text before the first suitable ':' and holds no line break |
| CMakeCache.MatchEntry | src/dtsh/dts.py:654-671 | a match's name is the line's text before a ':' and holds no line break |
| CMakeCache.NameEndEntry | src/dtsh/dts.py:617-623 | the name of an entry line without ':' in its name is scanned up to the ':' after it |
| CMakeCache.EntryLineType | src/dtsh/dts.py:617-623 | the type of an entry line is found after the name's ':' |
| CMakeCache.FromLineNotComment | src/dtsh/dts.py:647-656 | a line that is neither comment nor blank is read by the entry grammar |
| CMakeCache.MatchEntryAt | src/dtsh/dts.py:654-671 | once the name and the type are found the match is the entry they give |
| CMakeCache.FromEntryLine | src/dtsh/dts.py:631-671 | a cache line as CMake writes it reads back as its name and its decoded value |
| CMakeCache.ListValueJoins | src/dtsh/dts.py:665-669 | a list-typed value holding ';' becomes a list whose items join back to it |
| CMakeCache.DecodeAll | src/dtsh/dts.py:506-510 | every line is decoded, numbered by its index |
| CMakeCache.CollectFails | src/dtsh/dts.py:506-511 | collecting fails exactly when some line failed to decode |
| CMakeCache.CollectLastWins | src/dtsh/dts.py:511 | the collected map names exactly the names some entry defines, each with the value of its last entry |
| CMakeCache.LoadFails | src/dtsh/dts.py:496-511 | opening the cache fails exactly when some line fails to decode |
| CMakeCache.LoadLastWins | src/dtsh/dts.py:496-511 | the cache names exactly the names some line defines, each with the value of its last line |
| CMakeCache.Get | src/dtsh/dts.py:513-524 | `get()` answers a value exactly for the names in the cache |
| CMakeCache.GetBool | src/dtsh/dts.py:526-538 | `getbool()` holds only for a stored boolean true |
| CMakeCache.GetStr | src/dtsh/dts.py:540-553 | `getstr()` answers exactly the non-empty string values |
| CMakeCache.GetStrs | src/dtsh/dts.py:555-571 | `getstrs()` answers a non-empty string as one item, a list as it is, and nothing for a missing, boolean or empty value |
| YamlFile.ContentOf | src/dtsh/dts.py:816-831 | the content is the stripped text of the file, or "" when the path is empty or the file cannot be read |
| YamlFile.ModelAsWritten | src/dtsh/dts.py:833-851 | as written, an empty text or a syntax error leave the empty mapping, and an empty document is stored as `None`, which reads as "not loaded yet" |
| YamlFile.ModelOf | src/dtsh/dts.py:833-851 | the model is the loaded document, or the empty mapping for an empty text, an empty document or a syntax error |
| YamlFile.ModelCorrection | src/dtsh/dts.py:837-848 | the as-written and corrected models agree except on an empty document, which the corrected model stores as the (falsy) empty mapping |
| YamlFile.CommentOnlyFileUnloaded | src/dtsh/dts.py:837-848 | a file holding only a comment loads as `None`, so the as-written model stays unloaded and is parsed again on every access |
| YamlFile.ItemInclude | src/dtsh/dts.py:871-877 | an include list item gives at most one include: a string item itself, a mapping its truthy `name` |
| YamlFile.ListIncludes | src/dtsh/dts.py:870-877 | an include list gives at most one include per item |
| YamlFile.ListIncludesConcat | src/dtsh/dts.py:870-877 | the includes of two lists in a row are those of each, in order |
| YamlFile.ListIncludesStrings | src/dtsh/dts.py:870-873 | a list of strings is its own include list |
| YamlFile.ListIncludesSources | src/dtsh/dts.py:870-877 | every include is a string item of the list or the truthy name of a mapping item |
| YamlFile.IncludeNames | src/dtsh/dts.py:867-877 | a string `include:` is the one include; a value that is neither string nor list gives none |
| YamlFile.IncludesOf | src/dtsh/dts.py:853-877 | an empty model has no includes; a mapping has those of its `include:` entry, none without it; any other truthy document raises (it has no `get()`) |
| YamlFile.YAMLFile.constructor | src/dtsh/dts.py:761-773 | a new file records its path and has read, parsed and searched nothing |
| YamlFile.YAMLFile.InitContent | src/dtsh/dts.py:816-831 | the file is read only once: the first call sets the content and records a read error, later calls change nothing |
| YamlFile.YAMLFile.InitModelAsWritten | src/dtsh/dts.py:833-851 | as written, the first call reads the content if needed, stores the as-written model, which may again be unset, and records the read error and then the syntax error; later calls change nothing |
| YamlFile.YAMLFile.InitModel | src/dtsh/dts.py:833-851 | the model is parsed only once: the first call reads the content if needed, stores the model and records a syntax error; later calls change nothing |
| YamlFile.YAMLFile.InitIncludes | src/dtsh/dts.py:853-877 | the includes are searched only once, after the model is initialized as written (with its read and syntax errors recorded); an unloaded or empty model gives no includes, a document that is not a mapping raises and leaves the includes empty, and a mapping gives the includes of its `include:` entry |
| YamlFile.YAMLFile.AppendListIncludes | src/dtsh/dts.py:870-877 | the loop over an include list appends the list's includes, in order, and changes nothing else |
| DtshCmd.CommandOption.constructor | src/dtsh/dtsh.py:87-107 | a new option records its description, names and argument name, and has no value yet |
| DtshCmd.CommandOption.Usage | src/dtsh/dtsh.py:145-159 | the usage string is empty exactly when the option has neither name nor argument name |
| DtshCmd.CommandOption.Reset | src/dtsh/dtsh.py:191-194 | reset puts the value back to `None` |
| DtshCmd.CommandOption.SetValue | src/dtsh/dtsh.py:173-183 | the setter stores the value |
| DtshCmd.UsageJoinsWords | src/dtsh/dtsh.py:145-159 | the usage of a named option is "-s", "--long" and "<arg>", those that are set, joined by single spaces |
| DtshCmd.UsageSplits | src/dtsh/dtsh.py:145-159 | with names free of spaces the usage string splits at spaces back into those words |
| DtshCmd.UsageWithoutNames | src/dtsh/dtsh.py:149-158 | an option with an argument name but no name has a usage string that starts with a space |
| DtshCmd.LongSpec | src/dtsh/dtsh.py:278-292 | the long specification has at most one entry per option |
| DtshCmd.ShortHasArg | src/dtsh/dtsh.py:264-276 | getopt recognises a short letter only when it occurs in the specification, and never ':' |
| DtshCmd.LongHasArg | src/dtsh/dtsh.py:278-292 | getopt reads an exact long name as a flag when the name is an entry, and as taking an argument when only "name=" is |
| DtshCmd.FirstShortArg | src/dtsh/dtsh.py:264-276 | a letter is meant for some option exactly when some option has that short name |
| DtshCmd.ShortHasArgConcat | src/dtsh/dtsh.py:270-276 | reading a specification built part by part finds the earlier part's answer first |
| DtshCmd.ShortSpecHasArg | src/dtsh/dtsh.py:264-276 | getopt reads `getopt_short` back: each letter gets the first option with that short name, with ':' exactly when it takes an argument |
| DtshCmd.LongSpecMember | src/dtsh/dtsh.py:278-292 | the entries of `getopt_long` are exactly the long entries of the options with a long name |
| DtshCmd.LongSpecHasArg | src/dtsh/dtsh.py:278-292 | with unique long names, getopt reads `getopt_long` back: each long name is found, as a flag or as taking an argument as its option does |
| DtshCmd.LongFlagAbsent | src/dtsh/dtsh.py:286-291 | the bare long name of an option that takes an argument is not itself an entry |
| DtshCmd.FindFrom | src/dtsh/dtsh.py:311-318 | the search answers the first option from the start index on that the name resolves to, or none when no option matches |
| DtshCmd.Resolve | src/dtsh/dtsh.py:302-318 | `option()` answers an option of the command that the name matches ("--long" or "-s"), and `None` only when none matches |
| DtshCmd.HelpResolves | src/dtsh/dtsh.py:210-234 | the help option appended by the constructor is what "-h" and "--help" resolve to, unless an earlier option takes those names |
| DtshCmd.ValueFor | src/dtsh/dtsh.py:358-364 | a parsed option gets `True` exactly when it takes no argument, else its argument |
| DtshCmd.FlagParsed | src/dtsh/dtsh.py:358-364 | after parsing, a flag is `True` exactly when some parsed name resolves to it, and is otherwise unset |
| DtshCmd.ArgLastWins | src/dtsh/dtsh.py:358-364 | an option taking an argument keeps the argument of the last parsed pair naming it |
| DtshCmd.WithShort | src/dtsh/dtsh.py:378 | `shortopts` holds only options with a short name |
| DtshCmd.LongOnly | src/dtsh/dtsh.py:381-383 | `otheropts` holds only options with a long name that are not already short options |
| DtshCmd.LongCompletions | src/dtsh/dtsh.py:386-396 | long-name completion answers at most the command's options |
| DtshCmd.WithShortMember | src/dtsh/dtsh.py:378 | an option is in `shortopts` iff it has a short name |
| DtshCmd.LongOnlyMember | src/dtsh/dtsh.py:381-383 | an option is in `otheropts` iff it has a long name and is not a short option |
| DtshCmd.LongCompletionsMember | src/dtsh/dtsh.py:386-396 | "--p" completes to exactly the options whose long name strictly extends p, all long-named options for "--" |
| DtshCmd.CompletionsDash | src/dtsh/dtsh.py:376-384 | "-" completes to exactly the options with a name, those with a short name first |
| DtshCmd.CompletionsLong | src/dtsh/dtsh.py:366-398 | "--p" completes to the options whose long name strictly extends p; any other prefix but "-" completes to nothing |
| DtshCmd.DtshCommand.constructor | src/dtsh/dtsh.py:210-234 | the options are the given ones, then a fresh "--pager" flag when asked for, then a fresh "-h/--help" flag; there are no parameters yet |
| DtshCmd.DtshCommand.GetoptShort | src/dtsh/dtsh.py:264-276 | the loop builds the short specification of the options |
| DtshCmd.DtshCommand.GetoptLong | src/dtsh/dtsh.py:278-292 | the loop builds the long specification of the options |
| DtshCmd.DtshCommand.Option | src/dtsh/dtsh.py:302-318 | the loop answers the option the name resolves to |
| DtshCmd.DtshCommand.Reset | src/dtsh/dtsh.py:334-339 | every option is back to `None` and there are no parameters, so no flag is set |
| DtshCmd.DtshCommand.ParseArgv | src/dtsh/dtsh.py:341-364 | after parsing, the parameters are what getopt left and each option holds the value the last parsed pair naming it set, or `None` |
| DtshCmd.DtshCommand.AutocompleteOption | src/dtsh/dtsh.py:366-398 | the loop answers the option completions of the prefix |
| DtshPath.Nodename | src/dtsh/dtsh.py:775-802 | `nodename` refuses the empty path, answers "/" for the root and otherwise a name without '/' |
| DtshPath.DirnameAsWritten | src/dtsh/dtsh.py:804-832 | the directory as the code computes it refuses exactly the empty path |
| DtshPath.DirnameCore | src/dtsh/dtsh.py:820-832 | the directory of a path without trailing '/' is never empty: "/" under the root, "." without any '/' |
| DtshPath.Dirname | src/dtsh/dtsh.py:804-832 | the corrected `dirname` refuses exactly the empty path and never answers "" |
| DtshPath.DirnameAgrees | src/dtsh/dtsh.py:820-832 | the code and the corrected reading agree on every path that does not end in '/' |
| DtshPath.DirnameAsWrittenRootChild | src/dtsh/dtsh.py:826-829 | as written, the directory of "/a/" is "" where the documented answer is "/" |
| DtshPath.DirnameAsWrittenRelative | src/dtsh/dtsh.py:826-829 | as written, the directory of "a/" is "a" where the documented answer is "." |
| DtshPath.DirnameTrailingSlash | src/dtsh/dtsh.py:804-832 | one trailing '/' does not change the corrected directory |
| DtshPath.PathConcat | src/dtsh/dtsh.py:834-864 | concatenation refuses an empty prefix, an empty path and an absolute path; otherwise it extends the prefix and ends with the path less one trailing '/' |
| DtshPath.PathConcatName | src/dtsh/dtsh.py:858-864 | a name joined under a directory has exactly one '/' between them |
| DtshPath.PathConcatInverse | src/dtsh/dtsh.py:775-864 | `dirname` and `nodename` take a name joined under a directory apart again |
| DtshPath.PathConcatTrailing | src/dtsh/dtsh.py:861-862 | a trailing '/' on the relative path is dropped |
| DtshPath.Realpath | src/dtsh/dtsh.py:570-628 | an empty path is refused; an absolute path resolves to itself less a trailing '/'; a path not starting with '.' is joined under the current node |
| DtshPath.RealpathAbsolute | src/dtsh/dtsh.py:600-605 | a node path resolves to itself, with or without a trailing '/' |
| DtshPath.RealpathParent | src/dtsh/dtsh.py:606-622 | ".." and "../" resolve to the directory of the current node, and the root is its own parent |
| DtshPath.RealpathParentName | src/dtsh/dtsh.py:606-620 | "../name" is the name joined under the directory of the current node |
| DtshPath.RealpathCurrent | src/dtsh/dtsh.py:606-622 | "." and "./" resolve to the current node, and "./name" to the name joined under it |
| DtshPath.RealpathRelative | src/dtsh/dtsh.py:624-626 | a name under a node path resolves below that node: `dirname` and `nodename` take it back apart |
| DtshPath.RealpathWildcard | src/dtsh/dtsh.py:570-628 | a trailing wildcard survives resolution |
| DtshPath.Dtsh.constructor | src/dtsh/dtsh.py:470-481 | a new shell starts at the devicetree root |
| DtshPath.Dtsh.Cd | src/dtsh/dtsh.py:666-679 | `cd` resolves the path and moves to it when it names a node; an unresolvable path or a missing node is refused and the current node is kept |
| Walking.RWalkClosed | src/dtsh/model.py:1481-1486 | walking back from a node yields, with each node, its parent |
| Walking.ChildDepth | src/dtsh/model.py:1451-1454 | a child lies one level below its parent |
| Walking.LevelsDepth | src/dtsh/model.py:1451-1454 | a node reached within d levels of a branch is at most d path levels deeper |
| Walking.WalkAllPermutation | src/dtsh/model.py:1460-1463 | walking the children in any order yields the same nodes, as a multiset |
| Walking.LineageInComb | src/dtsh/modelutils.py:686-742 | in a comb that holds each node's parent, a comb node of a branch is reached from the branch through comb nodes only |
| Redirect.DTShRedirect.constructor | src/dtsh/io.py:244-245 | the redirection object holds the real path and the append mode it is given |
| Redirect.Open | src/dtsh/io.py:214-245 | the redirection is set up step by step with exactly the outcome NewRedirect specifies: the same error, or a fresh object with the same real path and mode |
| DTSUtil.MkPhandle | src/dtsh/modelutils.py:878-898 | a phandle is written as a reference to the node's first label, or as its path when it has no label, inside a "< ... >" cell when asked |

## Left out

- Nodes are immutable records, and the nodes of a shell session are a set of paths given to `Dtsh`. The edtlib-backed model behind them is not part of this model. That covers building the model, binding and vendor lookups, and decoding property values. `Dtsh.path2node` and `is_node` (src/dtsh/dtsh.py:630-664) become membership in that set.
- The strict regular-expression mode of text criteria hands the pattern to Python's `re`; only the plain-text mode is modelled. Ignoring case folds ASCII letters only, not the full Unicode case folding of `re.IGNORECASE`.
- `posixpath` is modelled only as far as the properties of `normpath`, `join` and `abspath` need. `relpath` is not modelled.
- ModelView.MkSize: a fractional SI size is kept as quotient, remainder, unit size and unit (`SizeFraction`). The float text Python prints for it is not modelled. Rich styling, links and colours are not modelled.
- File and terminal I/O become parameters:
  - the lines of a CMake cache file;
  - the texts of binding files (a map from path to text);
  - the YAML loader (a function from text to a document or a syntax error);
  - the file system of a redirection: its working directory, home directory and existing files.
  A leading `~` expands with the home-directory parameter. Error messages printed to stderr are not modelled.
- HTML and SVG export, file outputs, the session, pager and readline layers, subprocess wrappers and the environment discovery of `DTS` are not part of this model.
- DtshCmd.DtshCommand.ParseArgv: `getopt.gnu_getopt` itself is not modelled. The method takes the option pairs and the parameters getopt would return, so `GetoptError` never arises here.
- DtshCmd.LongHasArg: a long option is looked up by its exact name. getopt's acceptance of a unique prefix of a long option name is not modelled.
- `DtshCommand.usage` (src/dtsh/dtsh.py:248-255), `Dtsh.ls` (src/dtsh/dtsh.py:681-734) and command execution (src/dtsh/dtsh.py:736-773) are not modelled. The builtin commands only orchestrate the core and are not part of this model, and neither are the completion engines.
- Completion returns the option objects; the brief texts the completion display shows are not modelled.
- DTSUtil.MkInt: requires a non-negative value. On a negative value the source's `x >>= 8` loop never ends, because an arithmetic shift of a negative number stays negative (`DTSUtil.ShiftStaysNegative`).
- `mk_property_value`, `mk_phandles`, `mk_phandle_array` and `mk_phandle_and_data` (src/dtsh/modelutils.py:748-813 and 933-991) take edtlib property values and are not modelled. `mk_phandle` takes the node's labels and path in place of the node.
- PyStr.PyInt: Python's `int()` also accepts non-ASCII decimal digits; the model accepts ASCII digits only.
- CMakeCache.ToBool: upper-cases ASCII letters only. Python's `str.upper()` (src/dtsh/dts.py:685) maps every cased Unicode character and can change the length ("ß" becomes "SS"). So a value such as "yeſ", which Python reads as "YES", is refused here, and a refused value carries its ASCII-only upper-case writing ("café" gives "CAFé" where the source reports "CAFÉ"). CMakeCache.UpperToBool and CMakeCache.ToBoolCaseInsensitive inherit this. A value that the model accepts as a named constant is accepted the same way by the source.
- ShellArgs.Scan: the digit class of the integer-expression pattern (src/dtsh/shellutils.py:249) is ASCII `0-9` here. Python's `\d` in a str pattern without `re.ASCII` matches every Unicode decimal digit, and `int(…, base=0)` (src/dtsh/shellutils.py:291) reads them. So an expression such as "٣", which the source reads as `== 3`, is refused here.
- ShellArgs.ScanRejects: inherits the ASCII digit class of ShellArgs.Scan. A non-ASCII decimal digit counts as outside the grammar here, while Python's `\d` accepts it.
- ShellArgs.ParseIntExprInvalid: inherits the ASCII digit class of ShellArgs.Scan. An expression holding a non-ASCII decimal digit is refused here as an invalid integer expression, while the source parses it.
- ShellArgs.PyIntBase0: reads ASCII digits only, where Python's `int(…, base=0)` also reads other Unicode decimal digits.
- YAML documents are modelled with string keys only.
- DtshPath.Realpath: a leading ".." resolves against the corrected `Dirname` of the current path. The source uses the as-written `dirname`. The two agree on every path without a trailing "/" (`DtshPath.DirnameAgrees`), which the working path of a shell always is.
- Where the documentation and the code differ, the model follows the code:
  - the integer-expression grammar admits no `0o` prefix, because its character class has no letter `o`;
  - the only SI units of an integer expression are `k`/`kb` and `m`/`mb`.

## Findings

| source | as written | input that shows it | evidently intended | confidence | as-written member | corrected member |
|---|---|---|---|---|---|---|
| src/dtsh/modelutils.py:462-466 | `DTNodeWithBinding.match` compares the raw pattern with ".*". A bare "*" therefore searches the compatible string and description like any other pattern. | a node whose binding has neither compatible string nor description, with the pattern "*" | "*" matches every node that has a binding, as the class comment says | not executed | Criteria.BindingMatchAsWritten (Criteria.BindingStarMissesBareBinding) | Criteria.BindingMatch (Criteria.BindingMatchAgrees, Criteria.MatchOneAgrees, Criteria.MatchOneDocumentedStar) |
| src/dtsh/dtsh.py:820-829 | After a trailing "/", the second `rfind` can return 0 or -1, and the slice is taken anyway. | "/a/" gives "" and "a/" gives "a" | "/" and ".", as for "/a" and "a" | not executed | DtshPath.DirnameAsWritten (DtshPath.DirnameAsWrittenRootChild, DtshPath.DirnameAsWrittenRelative) | DtshPath.Dirname (DtshPath.DirnameTrailingSlash) |
| src/dtsh/dts.py:837-848 | An empty YAML document loads as `None`, and `None` is stored. The "only once" guard then reads the model as not loaded. | a binding file holding only "# no content" | the model is loaded once, and an empty document reads as the empty mapping | not executed | YamlFile.ModelAsWritten (YamlFile.CommentOnlyFileUnloaded, YamlFile.YAMLFile.InitModelAsWritten, YamlFile.YAMLFile.InitIncludes) | YamlFile.ModelOf (YamlFile.ModelCorrection, YamlFile.YAMLFile.InitModel) |
