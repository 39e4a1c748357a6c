# ClassTokenReplacer token pass, in Dafny

This project models `ReplaceTokensTask.run()` from the ClassTokenReplacer Gradle plugin. The task walks each classes directory of a source set. It decodes every `.class` file found there. In each class it rewrites three kinds of string constants:

- the string operands of `ldc` instructions;
- the string bootstrap arguments of `invokedynamic` instructions;
- the string initialisers of fields.

Each string is rewritten by applying `String.replace(key, value)` once for every entry of the token map, in map order. The class is re-encoded and written back over its file only if the pass's `hasReplacements` flag was raised.

Modules:

- **`Tokens`** (`tokens.dfy`) — Java's `String.replace(CharSequence, CharSequence)`:
  - left to right and non-overlapping;
  - with an empty key, the value is inserted before every character and at the end.

  It also holds the left fold of that replace over the token map (`Substitute`), and the rule for the flag (`Changed`). The flag is raised when some intermediate value differs from the site's original string. The module proves that this happens exactly when some entry's key occurs in the original string and differs from its value.
- **`ClassModel`** (`class_model.dfy`) — the decoded class as values (constants, instructions, methods, fields), and the rewrite as pure functions over them. Those functions are the specification of the in-place pass.
- **`ClassTree`** (`class_tree.dfy`) — the mutable ASM tree as heap objects:
  - `LdcInsn.cst`, the `IndyInsn.bsmArgs` array and `FieldNode.value` are the only mutable parts;
  - footprint and disjointness invariants;
  - `View` functions that map the heap to `ClassModel` values;
  - builders that stand for `ClassReader.accept` filling a fresh `ClassNode`.
- **`TokenPass`** (`token_pass.dfy`) — the nested loops of the visit, as methods that update the tree in place. Each method is proved to leave the tree equal to the `ClassModel` rewrite of the old view, and its flag equal to the `ClassModel` flag.
- **`ReplaceTokensTask`** (`replace_tokens_task.dfy`) — the file-level loop:
  - the `.class` filter on the root-relative path;
  - the skip of classes directories that are not directories;
  - read, decode, pass, and write only when flagged;
  - the abort on the first failure.

  The file system is a map from paths to entries. ASM's reader and writer are two function parameters, `decode` and `encode`. The paths a walk lists are an input.
- **`Scenarios`** (`scenarios.dfy`) — concrete runs: map order matters, the flag can rise without a net change, and re-running is not idempotent.

Behaviour of the code that the model follows:

- The pass rewrites the string bootstrap arguments of every `invokedynamic`, whatever its bootstrap method.
- It does not rewrite annotation values.
- It has no separate output directory: a changed class is written back over its own file.
- A read failure or an undecodable class aborts the whole run, and files already written stay written.
- Re-running with the same map is not always a fixed point, even when no value contains a key: `RerunNotIdempotent` shows `[("ab","b")]` turning `"aab"` into `"ab"` and then `"b"`.

## Model

| member | source | states |
|---|---|---|
| Tokens.ReplaceAbsentKey | src/main/java/net/raphimc/classtokenreplacer/task/ReplaceTokensTask.java:79 | replacing a key that does not occur in the string returns the string unchanged |
| Tokens.ReplaceUnchangedIff | src/main/java/net/raphimc/classtokenreplacer/task/ReplaceTokensTask.java:79 | one replace leaves the string as it was if and only if the key does not occur or the key equals the value |
| Tokens.ReplaceEmptyKey | src/main/java/net/raphimc/classtokenreplacer/task/ReplaceTokensTask.java:79 | with an empty key the value is inserted at all \|s\|+1 positions, so the string changes exactly when the value is non-empty |
| Tokens.ReplaceNonEmptyLength | src/main/java/net/raphimc/classtokenreplacer/task/ReplaceTokensTask.java:79 | a value no shorter than the key never shortens the string, and a value no longer than the key never lengthens it |
| Tokens.ReplaceNonEmptySame | src/main/java/net/raphimc/classtokenreplacer/task/ReplaceTokensTask.java:79 | replacing a key by itself is the identity |
| Tokens.ReplaceNonEmptyChanges | src/main/java/net/raphimc/classtokenreplacer/task/ReplaceTokensTask.java:79 | a key that occurs, replaced by a different value, changes the string |
| Tokens.InsertEverywhereShape | src/main/java/net/raphimc/classtokenreplacer/task/ReplaceTokensTask.java:79 | the empty-key form of replace has length \|s\| + (\|s\|+1)·\|val\| and is the identity for an empty value |
| Tokens.SubstituteSnoc | src/main/java/net/raphimc/classtokenreplacer/task/ReplaceTokensTask.java:78-79 | the site's value after one more entry is that entry's replace applied to the previous step's output |
| Tokens.PrefixFixed | src/main/java/net/raphimc/classtokenreplacer/task/ReplaceTokensTask.java:78-82 | as long as no entry so far has a key that occurs in the original with a different value, every intermediate value equals the original |
| Tokens.ChangedIffHitsToken | src/main/java/net/raphimc/classtokenreplacer/task/ReplaceTokensTask.java:78-82 | a site raises the flag if and only if some entry's key occurs in its original string with a value different from the key |
| Tokens.NetChangeRaisesFlag | src/main/java/net/raphimc/classtokenreplacer/task/ReplaceTokensTask.java:78-84 | a site whose final value differs from its original has raised the flag |
| Tokens.NoTokenNoChange | src/main/java/net/raphimc/classtokenreplacer/task/ReplaceTokensTask.java:78-84 | a string that no entry rewrites keeps its value and does not raise the flag |
| Tokens.RerunFixedPoint | src/main/java/net/raphimc/classtokenreplacer/task/ReplaceTokensTask.java:78-84 | if no entry rewrites the first pass's output, a second pass changes nothing and raises no flag |
| ClassModel.OnlyStringPayloadsChange | src/main/java/net/raphimc/classtokenreplacer/task/ReplaceTokensTask.java:72-114 | with the text of every string constant blanked out, the rewritten class equals the decoded one: the methods, their instructions and the fields keep their number and order, and every name, descriptor, bootstrap handle and non-string constant keeps its value and position; only string payloads change |
| ClassModel.ConstUnflaggedUnchanged | src/main/java/net/raphimc/classtokenreplacer/task/ReplaceTokensTask.java:76-84 | a constant that raises no flag is left as it was |
| ClassModel.InsnUnflaggedUnchanged | src/main/java/net/raphimc/classtokenreplacer/task/ReplaceTokensTask.java:74-100 | an instruction that raises no flag is left as it was |
| ClassModel.MethodUnflaggedUnchanged | src/main/java/net/raphimc/classtokenreplacer/task/ReplaceTokensTask.java:72-102 | a method that raises no flag is left as it was |
| ClassModel.UnflaggedClassUnchanged | src/main/java/net/raphimc/classtokenreplacer/task/ReplaceTokensTask.java:70-116 | when the class-level flag stays false the rewritten tree equals the decoded one, so skipping the write loses nothing |
| ClassModel.ConstChangedIff | src/main/java/net/raphimc/classtokenreplacer/task/ReplaceTokensTask.java:76-82 | a constant raises the flag if and only if it is a string that some entry rewrites; non-string constants never do |
| ClassModel.InsnChangedIff | src/main/java/net/raphimc/classtokenreplacer/task/ReplaceTokensTask.java:74-99 | an instruction raises the flag if and only if one of its string operands or string bootstrap arguments is rewritten by some entry, whatever the bootstrap method |
| ClassModel.MethodChangedIff | src/main/java/net/raphimc/classtokenreplacer/task/ReplaceTokensTask.java:72-102 | a method raises the flag if and only if one of its instructions' string constants is rewritten by some entry |
| ClassModel.ClassChangedIff | src/main/java/net/raphimc/classtokenreplacer/task/ReplaceTokensTask.java:70-114 | the class-level flag, the OR over all sites, is raised if and only if some string constant of the class is rewritten by some entry |
| ClassModel.NoTokenClassUntouched | src/main/java/net/raphimc/classtokenreplacer/task/ReplaceTokensTask.java:70-116 | a class none of whose strings any entry rewrites raises no flag and is left as it was |
| ClassTree.NewInsn | src/main/java/net/raphimc/classtokenreplacer/task/ReplaceTokensTask.java:68-69 | a decoded instruction becomes fresh nodes whose view is that instruction |
| ClassTree.NewMethodNode | src/main/java/net/raphimc/classtokenreplacer/task/ReplaceTokensTask.java:68-69 | a decoded method becomes a fresh method node with unshared instruction nodes, whose view is that method |
| ClassTree.NewClassNode | src/main/java/net/raphimc/classtokenreplacer/task/ReplaceTokensTask.java:68-69 | a decoded class becomes a fresh, valid class node whose view is that class |
| TokenPass.SubstituteSite | src/main/java/net/raphimc/classtokenreplacer/task/ReplaceTokensTask.java:77-83 | the entry loop ends with the fold of the map over the original, and its flag is raised exactly when some intermediate value differed from the original |
| TokenPass.VisitLdc | src/main/java/net/raphimc/classtokenreplacer/task/ReplaceTokensTask.java:74-85 | the operand is rewritten in place as a constant, and the flag is the constant's flag |
| TokenPass.VisitIndy | src/main/java/net/raphimc/classtokenreplacer/task/ReplaceTokensTask.java:86-99 | every string slot of the argument array is rewritten in place and the other slots keep their values and positions; the flag is the OR over the slots |
| TokenPass.VisitInsn | src/main/java/net/raphimc/classtokenreplacer/task/ReplaceTokensTask.java:73-100 | dispatches on the node kind; other instructions are neither written nor flagged |
| TokenPass.VisitMethod | src/main/java/net/raphimc/classtokenreplacer/task/ReplaceTokensTask.java:72-102 | the method's nodes end as the method rewrite of their old view, and the flag is the method's flag |
| TokenPass.VisitField | src/main/java/net/raphimc/classtokenreplacer/task/ReplaceTokensTask.java:103-113 | the initialiser is rewritten in place; the flag is the field's flag |
| TokenPass.VisitMethods | src/main/java/net/raphimc/classtokenreplacer/task/ReplaceTokensTask.java:72-102 | every method ends rewritten; the flag is the OR over the methods' flags |
| TokenPass.VisitFields | src/main/java/net/raphimc/classtokenreplacer/task/ReplaceTokensTask.java:103-114 | every field ends rewritten; the flag is the OR over the fields' flags |
| TokenPass.ReplaceTokens | src/main/java/net/raphimc/classtokenreplacer/task/ReplaceTokensTask.java:70-114 | the tree ends as the class rewrite of its old view, and hasReplacements is the class-level flag |
| ReplaceTokensTask.ProcessClassFile | src/main/java/net/raphimc/classtokenreplacer/task/ReplaceTokensTask.java:67-121 | a missing or unreadable path is a read failure and undecodable bytes are a malformed class; otherwise the file is overwritten with the encoding of the rewritten class exactly when the flag is raised |
| ReplaceTokensTask.WalkClassesDir | src/main/java/net/raphimc/classtokenreplacer/task/ReplaceTokensTask.java:62-66 | walked paths are visited in order, paths whose relative form does not end in ".class" are skipped, and the first failure stops the walk |
| ReplaceTokensTask.Run | src/main/java/net/raphimc/classtokenreplacer/task/ReplaceTokensTask.java:56-127 | classes directories are processed in order, one that is not a directory is skipped, and the first failure ends the run |
| ReplaceTokensTask.WalkWritesOnlyClassFiles | src/main/java/net/raphimc/classtokenreplacer/task/ReplaceTokensTask.java:62-66 | a walk keeps every path and its kind and changes only existing files that it lists with a ".class" relative path |
| ReplaceTokensTask.RunWritesOnlyClassFiles | src/main/java/net/raphimc/classtokenreplacer/task/ReplaceTokensTask.java:58-66 | a run, complete or aborted, creates, deletes and retypes no path, and changes only files under classes directories that are directories, at walked ".class" paths |
| ReplaceTokensTask.UnflaggedWalkWritesNothing | src/main/java/net/raphimc/classtokenreplacer/task/ReplaceTokensTask.java:116-121 | a walk in which no file at a ".class" path that decodes holds a flagged class leaves every file's bytes as they were |
| ReplaceTokensTask.UnflaggedRunWritesNothing | src/main/java/net/raphimc/classtokenreplacer/task/ReplaceTokensTask.java:116-121 | a run in which no ".class" path walked under a classes directory that is a directory holds a decodable, flagged class leaves the store as it was, with no file re-encoded |
| Scenarios.VersionAndNameScenario | src/main/java/net/raphimc/classtokenreplacer/task/ReplaceTokensTask.java:105-112 | "app-${NAME}-${VER}" under [${VER}→1.2.3, ${NAME}→demo] becomes "app-demo-1.2.3" and raises the flag |
| Scenarios.MapOrderMatters | src/main/java/net/raphimc/classtokenreplacer/task/ReplaceTokensTask.java:78-79 | a later entry rewrites what an earlier one produced, so reversing the map order gives a different result |
| Scenarios.FlagWithoutNetChange | src/main/java/net/raphimc/classtokenreplacer/task/ReplaceTokensTask.java:78-82 | the swap ${A}→${B}, ${B}→${A} ends where it began yet raises the flag |
| Scenarios.RerunNotIdempotent | src/main/java/net/raphimc/classtokenreplacer/task/ReplaceTokensTask.java:78-84 | with [ab→b], "aab" becomes "ab" and a second run gives "b", although the value contains no key |

## Left out

- Gradle wiring: the `@Input` properties, the constructor and the `property(...)` helpers (`ReplaceTokensTask.java:43-52,130-136`). This is build-framework plumbing. The token map is a parameter.
- Map values: `Object.toString()` on map values and Provider-backed values are not modelled. Values are taken as already-stringified strings, and the map as a sequence fixed for the whole run.
- ASM: `ClassReader` and `ClassWriter` are the `decode`/`encode` function parameters. Decoding failure is `None`. The writer's own failures, such as a string too long for the constant pool, are not modelled. `NewClassNode` stands for the reader filling the tree.
- Class details of the tree: everything outside the constants the pass reads is left out (access flags, other instructions' operands, constant kinds beyond those named). Floating-point constants are folded into `Num`. The arguments of a constant-dynamic constant are not modelled, as the pass never looks inside them.
- File I/O: `Files.walk`, `readAllBytes`, `Files.write` and the `UncheckedIOException` wrapping (`ReplaceTokensTask.java:62-67,120-124`) are not modelled as I/O:
  - the file system is a map from paths to entries;
  - a walk is a given sequence of relative paths;
  - a read failure is a path that is missing or is a directory;
  - write failures are not modelled;
  - the resource closing of the stream is not modelled.
- Path rendering: the separator is `/`, so `Join` stands for `Path.toString`. Platform-specific separators are not modelled.
- Characters: strings are sequences of `char`, and a Dafny `char` is a Unicode scalar value. Java strings are UTF-16 code units, so a string with a lone surrogate, which Java and class-file constants allow, cannot be represented. Where an empty key inserts its value relative to surrogate pairs is not modelled either.
- The plugin class and the extension (`ClassTokenReplacerPlugin.java`, `ClassTokenReplacerExtensionImpl.java`): Jar-task wiring and a property holder, outside the token pass.
- Annotation values: the code does not rewrite them, so the model has no annotation trees.
