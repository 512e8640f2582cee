# Password generator: a verified model

This project models the password logic of `gerador_senhas.py` in Dafny. That logic has three parts:

- **Pool builder (`montar_conjunto`).** It turns four class flags into four character pools and the pool `todos`:
  - the pools are ASCII lower-case letters, upper-case letters, digits and punctuation;
  - the punctuation pool loses the twelve characters ``"'\/:`<>,|=~`` by default;
  - `todos` joins the pools in that order;
  - the builder fails when no class is selected.
- **Generator (`gerar_senhas`).** It checks the request first:
  - the length must be at least the number of enabled classes;
  - `qtd` must not exceed `|todos|^tamanho`.

  It then builds candidates and adds them to a set until the set holds `qtd` passwords. Each candidate has:
  - one forced character from each enabled pool;
  - filler characters from `todos`;
  - a shuffle.
- **Evaluator (`avaliar_forca`).** It gives one of five labels from three things:
  - the length;
  - whether every enabled class occurs;
  - the entropy estimate `len * log2(|todos|)` measured against a table of thresholds.

Modules:

- `Seqs`: distinctness, order-keeping filtering, counting distinct elements.
- `DrawStream`: reading a stream of draws in blocks, one value per block, and the loop that collects the values into a set.
- `Power`: natural powers.
- `Errors`: the three errors and `Result`.
- `Charset`: the pool builder.
- `Capacity`: enumerates all strings of a given length over a pool and counts them. It also counts the strings that cover every enabled class.
- `Strength`: the evaluator, with its five verdicts as the datatype `Verdict`.
- `Generator`: the checks, one candidate, and the collecting loop.

Randomness is a parameter: a stream of natural numbers (draws).

- `secrets.choice(pool)` takes the next draw `d` and returns `pool[d % |pool|]`.
- `rng.shuffle` is CPython's Fisher–Yates: for `i` from the last position down to 1, it swaps position `i` with position `d % (i + 1)`.
- One candidate therefore reads `2 * tamanho - 1` draws.
- The source loop runs until it has `qtd` passwords. In the model, a run that exhausts the stream first ends as `Unfinished`, together with the passwords found so far.
- A round is one pass of the loop body. The rounds of a stream (`Generator.Rounds`) are the candidates built from its consecutive blocks of `2 * tamanho - 1` draws, in order. An incomplete final block is ignored.
- The candidates are exactly the acceptable passwords: every block yields one, and for every acceptable password `Generator.DrawsFor` gives a block that yields it. Laying such blocks end to end (`Generator.StreamFor`) gives a stream whose rounds are any chosen list of acceptable passwords.

The entropy test `len * log2(n) >= T` is stated exactly over the integers as `n^len >= 2^T`. None of the reachable pool sizes is a power of two:

| classes enabled | pool size |
|---|---|
| digits | 10 |
| symbols | 20 |
| one case of letters | 26 |
| digits and symbols | 30 |
| one case and digits | 36 |
| one case and symbols | 46 |
| both cases | 52 |
| one case, digits and symbols | 56 |
| both cases and digits | 62 |
| both cases and symbols | 72 |
| all four classes | 82 |

## Model

| member | source | states |
|---|---|---|
| Charset.ClassPool | gerador_senhas.py:20-27 | When the flag is off, a class pool is empty. When it is on, the pool holds exactly the characters of the ASCII class. With filtering on, the denylisted symbols are removed. The pool is ascending, so the original order is kept, and it has 26, 26, 10 or 20 characters (32 symbols without filtering). |
| Charset.PunctuationFacts | gerador_senhas.py:23 | `string.punctuation` has 32 characters, is ascending and holds exactly the ASCII symbol class. |
| Charset.SafeSymbolsFacts | gerador_senhas.py:25-27 | Removing the denylist from punctuation keeps the remaining characters in their original order. Exactly 20 survive, and these are exactly the symbols not on the denylist. |
| Charset.Build | gerador_senhas.py:18-32 | Fails, with the no-class error, exactly when all four flags are false. On success: `todos` is lower ++ upper ++ digits ++ symbols; each pool holds exactly its enabled class and has the class size; `todos` holds exactly the enabled classes' characters, has no duplicate, and has the size the flags determine (12 more with symbols and no filtering). |
| Generator.Validate | gerador_senhas.py:40-56 | The checks, in source order. No class selected gives the no-class error. Length below the number of enabled classes, and only then, gives LengthTooSmall with that number; a length equal to it passes. `PoolSize^tamanho < qtd`, and only then, gives CapacityExceeded with that power; equality passes. On success it returns the built pools. |
| Generator.PoolStringsBound | gerador_senhas.py:53-56 | The figure in the capacity message is an upper bound: no set of distinct strings of length `tamanho` over the pool is larger than `|todos|^tamanho`. |
| Generator.PoolStringsWitness | gerador_senhas.py:53-56 | The figure is also reached: every count up to `|todos|^tamanho` is met by some set of distinct strings over the pool. |
| Capacity.Words | gerador_senhas.py:53 | Enumerates the strings of length n over a pool. There are `|a|^n` of them; they are exactly the strings of length n over the pool; they are pairwise distinct when the pool is. |
| Capacity.UniqueBound | gerador_senhas.py:53-56 | Any set of length-n strings over a pool has at most `|a|^n` elements. |
| Capacity.UniqueWitness | gerador_senhas.py:53-56 | A duplicate-free pool has sets of distinct length-n strings of every size up to `|a|^n`. |
| Capacity.CoveringWords | gerador_senhas.py:58-63 | Enumerates exactly the acceptable strings: length `tamanho`, over the pool, covering every enabled class. They are pairwise distinct. By `Generator.CandidateRange` these are exactly the strings the loop can add. |
| Capacity.CoveringBound | gerador_senhas.py:58-63 | No set of such passwords is larger than their count. |
| Capacity.CoveringWitness | gerador_senhas.py:58-63 | Every count up to that number is met by some set of such passwords. |
| Generator.Pick | gerador_senhas.py:60-61 | `secrets.choice` returns a character of the pool it is given. |
| Generator.ActiveClasses | gerador_senhas.py:42-48 | The enabled classes. There are `ativos` of them, and a class is listed exactly when its flag is on. |
| Generator.Forced | gerador_senhas.py:60 | One character per enabled class, each from that class's pool. |
| Generator.Fill | gerador_senhas.py:61 | One character of `todos` per draw. |
| Generator.Swap | gerador_senhas.py:62 | Exchanges two positions, leaves the rest unchanged and keeps the multiset. |
| Generator.ShuffleFrom | gerador_senhas.py:62 | The Fisher–Yates steps keep the length and the multiset of characters: a shuffle is a permutation. |
| Generator.Shuffle | gerador_senhas.py:62 | `rng.shuffle` on a non-empty list is a permutation of it. |
| Generator.Candidate | gerador_senhas.py:60-63 | Every candidate is acceptable, for every draw. It has length `tamanho`, every character is in `todos`, and every enabled class occurs. |
| Generator.CandidateOverPools | gerador_senhas.py:60-63 | After any permutation of the forced and filler characters, every character comes from an enabled pool. |
| Generator.CandidateCovers | gerador_senhas.py:60-63 | The forced characters survive the shuffle, so every enabled class occurs. |
| Generator.Unpick | gerador_senhas.py:60-61 | Every character of a pool is returned by `secrets.choice` for some draw, which is its position in the pool. |
| Generator.ForcedDraws | gerador_senhas.py:60 | Any choice of one character per enabled class, each from its pool, is what line 60 picks for some draws. |
| Generator.FillDraws | gerador_senhas.py:61 | Any filler over `todos` is what line 61 picks for some draws. |
| Generator.UnshuffleFrom | gerador_senhas.py:62 | The Fisher–Yates steps can produce every rearrangement. For any `t` that rearranges the first `top + 1` elements of `s` and agrees with `s` above them, there are draws under which the steps from `top` down turn `s` into `t`. |
| Generator.Unshuffle | gerador_senhas.py:62 | `rng.shuffle` can produce every permutation of a non-empty list. |
| Generator.Split | gerador_senhas.py:60-61 | A password holding each of a list of distinct classes splits into one character of each class, in list order, and the remaining characters. Together the two parts are a permutation of the password. |
| Generator.DrawsOver | gerador_senhas.py:60-62 | A password that holds each of the given classes, over pools that hold those classes' characters and its own, is built by some block of draws. The forced part comes from the class pools, the filler from the whole pool, and the shuffle restores the password's order. |
| Generator.DrawsFor | gerador_senhas.py:60-63 | Every acceptable password is a candidate: for each one there is a block of `2 * tamanho - 1` draws under which lines 60-62 build exactly that password. |
| Generator.CandidateRange | gerador_senhas.py:60-63 | A password is acceptable exactly when some block of draws makes it the candidate. |
| Capacity.CoveringSet | gerador_senhas.py:58-63 | The set of all acceptable passwords, which by `Generator.CandidateRange` are exactly the passwords the loop can add. Its size is the covering capacity. |
| Generator.RoundsAcceptable | gerador_senhas.py:58-63 | Every round's candidate is acceptable. |
| DrawStream.ChunksOfBlocks | gerador_senhas.py:58-63 | Reading a stream made of whole blocks gives back one value per block, in order. |
| Generator.StreamFor | gerador_senhas.py:58-63 | For any list of acceptable passwords there is a stream whose rounds are exactly that list, in order. |
| Generator.CoveringStream | gerador_senhas.py:58-63 | Some stream's rounds hold every acceptable password: as many distinct passwords as the covering capacity. |
| DrawStream.CollectChunks | gerador_senhas.py:58-63 | The `while` loop over any candidate builder. It stops done exactly when the set holds `qtd` elements, and the set never exceeds `qtd`. The set is always made of the candidates read so far. If the blocks run out first, it is the set of all the candidates. Otherwise it is the set of the first rounds, and one round fewer was still short of `qtd`. |
| Generator.Collect | gerador_senhas.py:58-63 | The loop itself. Every member of the set is acceptable and the set never exceeds `qtd`. The loop ends done exactly when the set holds `qtd` passwords. The set is made of the stream's rounds: all of them when the draws ran out, and otherwise the first rounds up to the one at which the set reached `qtd`. |
| Generator.Enumerate | gerador_senhas.py:64 | `list(senhas)` holds each element of the set exactly once: distinct, the same elements, the same size. |
| Generator.Loop | gerador_senhas.py:58-64 | After the checks, the result has exactly `qtd` pairwise-distinct acceptable passwords (none when `qtd <= 0`). These are the candidates of the first rounds, up to the round at which the set reached `qtd`. If the draws run out first, the result is the set of every round's candidate, which is short of `qtd`. |
| Generator.Generate | gerador_senhas.py:36-64 | The run is rejected exactly when the checks fail, with their error. Otherwise it yields `qtd` pairwise-distinct passwords of length `tamanho` over `todos`, each covering every enabled class. They are the candidates of the stream's first rounds. A run that exhausts the stream holds every round's candidate. The evaluator, with the same flags, rates each password without error and never as "Fraca (faltam tipos exigidos)". |
| Strength.Evaluate | gerador_senhas.py:68-90 | Fails exactly when no class is selected. Under 8 characters the verdict is "Fraca". The verdict is "Fraca (faltam tipos exigidos)" exactly when the length is at least 8 and an enabled class is missing. Otherwise, each of "Muito Forte", "Forte", "Média" and "Fraca" holds exactly when its table row is the first one met. |
| Strength.EvaluateText | gerador_senhas.py:68-90 | The string `avaliar_forca` returns. It is always one of the five strings on lines 73, 81, 85, 87, 89 and 90. A verdict's label is returned exactly when the evaluator reaches that verdict, so no two verdicts share a string. "Fraca (faltam tipos exigidos)" is returned exactly when the length is at least 8 and an enabled class is missing. |
| Strength.MissingClassIsUncovered | gerador_senhas.py:74-81 | The source's search over the pools finds a missing class exactly when the password does not cover every enabled class. |
| Strength.ClassifyTiers | gerador_senhas.py:84-90 | The table read from its first row is the chain of tests (16, 90), (12, 70), (8, 50), with "Fraca" otherwise. |
| Strength.EntropyThresholdsNest | gerador_senhas.py:84-89 | Meeting 90 bits implies meeting 70, and meeting 70 implies meeting 50. |
| Strength.ClassifyMonotone | gerador_senhas.py:83-90 | For a fixed pool, the table's verdict never drops as the length grows. |
| Strength.RankMonotoneInLength | gerador_senhas.py:72-90 | For fixed flags, a covering password ranks at least as high as any shorter password. |
| Strength.AllClassesTwelveIsStrong | gerador_senhas.py:83-87 | With all four classes (82 characters), a covering 12-character password is "Forte": `82^12 >= 2^70`. |
| Strength.MissingClassesExample | gerador_senhas.py:72-81 | "abc12345" with all classes enabled is "Fraca (faltam tipos exigidos)". |
| Generator.ValidateCovering | gerador_senhas.py:53-56 | The corrected capacity check. It is the same as `Validate`, except that capacity is the number of strings covering every enabled class, and the check rejects exactly when that number is below `qtd`. |
| Generator.CoveringAdmitted | gerador_senhas.py:53-63 | When the corrected check passes, `qtd` distinct acceptable passwords exist. |
| Generator.CoveringRejectionIsExact | gerador_senhas.py:53-63 | When the corrected check rejects for capacity, every set of acceptable passwords is smaller than `qtd`. |
| Generator.GenerateCorrected | gerador_senhas.py:36-64 | The generator with the corrected check: rejected exactly when that check fails, and otherwise the same guarantees as `Generate`. |
| Generator.CorrectedAdmitsReachable | gerador_senhas.py:53-64 | Every request the corrected check admits can be completed: on some stream the rounds hold at least `qtd` distinct passwords, and the generator with the corrected check returns `qtd` distinct acceptable passwords taken from that stream's first rounds. |
| Generator.GuardAdmitsUnreachableRequest | gerador_senhas.py:53-63 | Digits and symbols, length 2, 401 passwords: the check on line 53 passes, but no set of acceptable passwords exceeds 400. |
| Generator.NeverGeneratedOnFindingInput | gerador_senhas.py:53-64 | On that request, with any stream of draws, the generator never returns a list. It always ends short of 401 passwords. |
| Generator.CorrectedGuardRejectsUnreachableRequest | gerador_senhas.py:53-56 | The corrected check rejects that request. |

## Left out

- `main`, `perguntar_inteiro`, `perguntar_sim_nao` and `perguntar_opcao` are interactive input/output loops with no logic to model.
- `copiar_para_area` wraps the external clipboard library.
- `salvar_arquivo` is file output plus a global counter.
- `formatar_tipos` only formats text for display.
- The cryptographic quality of `secrets`/`SystemRandom` is not modelled: choices and shuffles read an arbitrary stream of draws, and every property holds for every stream.
- Probabilistic termination of the `while len(senhas) < qtd` loop is not modelled. A finite stream stands for "the loop has not finished yet", and only partial correctness is proved.
- The order of `list(senhas)` is not modelled: Python's set order is unspecified, so `Enumerate` may return any order.
- The Portuguese error messages are not modelled. The three errors carry only the number each message reports.
- `math.log2` on floats is replaced by the exact integer comparison `n^len >= 2^T`. Floating-point rounding of `len * log2(n)` near a threshold is not reproduced.
- `montar_conjunto` with `remover_perigosos=False` is modelled (`Build(cfg, false)`), but no caller in the file uses it.

## Findings

| source | as written | input that shows it | evidently intended | confidence | as-written member | corrected member |
|---|---|---|---|---|---|---|
| gerador_senhas.py:53-63 | The check compares `qtd` with `len(todos) ** tamanho`, the number of all strings over the pool. Every candidate, however, holds one character of each enabled class, so fewer distinct candidates exist. | digits and symbols only, `tamanho = 2`, `qtd = 401`: the check passes (30^2 = 900). Only 2 * 10 * 20 = 400 two-character strings hold a digit and a symbol, so the loop of lines 59-63 can never reach 401. | The error message presents its figure as the most distinct passwords that can be generated, so the check should count the strings that cover every enabled class. `main` limits `qtd` to 1..100 and `tamanho` to 4..64, which keeps this input out of the interactive path. | not executed; high for direct callers of `gerar_senhas`, unreachable through `main` | Generator.GuardAdmitsUnreachableRequest | Generator.ValidateCovering |
