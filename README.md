# A verified model of the indirect-measurement decoder

`IndirectMeasurements/decoder.py` estimates the logical error rate of a stabilizer-encoded
qubit. Its photons are measured one after another. The decoder works in five stages:

- It enumerates every branch of the measurement tree as a string of '+' (no error) and '-' (error) signs.
- It assigns each qubit a measurement basis from the stabilizers.
- It lays out one pair of (up, down) projectors per qubit.
- It builds a dictionary of conditional probabilities keyed by a numeric encoding of the tree path.
- It samples outcomes by walking that tree with uniform draws. It reads the syndrome and the logical value off the ±1 observables. Over many samples it counts syndromes and logical errors, then turns the counts into a corrected and an uncorrected logical error rate.

This project models that core in Dafny, one module per stage:

| module | file | source functions |
|---|---|---|
| `Outcomes` | `outcomes.dfy` | the Python exceptions the code can raise (IndexError, KeyError, ZeroDivisionError), carried by a `Result` |
| `Lists` | `lists.dfy` | first-occurrence deduplication, as `get_perm` builds `clean_duplicates` and `S_count_P_cond` builds `S_measured`; its helper `IndexOf` only serves to state the order kept |
| `Reals` | `reals.dfy` | no source function: a product of two reals kept as one function symbol, shared by the key and the rate arithmetic |
| `Configurations` | `configurations.dfy` | `get_perm`, `get_configuration`, with `itertools.permutations` written out |
| `Basis` | `basis.dfy` | `get_B` |
| `Projectors` | `projectors.dfy` | `meas_projectors`, as a layout of Kronecker factor labels |
| `ProbabilityTree` | `probability_tree.dfy` | the key arithmetic and `gen_prob_dict`, with `prob_den` a parameter |
| `Sampler` | `sampler.dfy` | `get_logical_op`, with the random draws a parameter |
| `Statistics` | `statistics.dfy` | `conditional_M_S`, `corrected_conditional`, `logical_error`, `S_count_P_cond` |

The loops of the source are methods with loop invariants. Each method is proved against a
specification function: `FirstOccurrences`, `Permutations`, `FirstLabel`, `FactorAt`,
`Record`/`Tree`, `Walk`, `Observables`/`Parity`, `Tally` and `AddKey`/`LogicalErrorOf`. Lemmas then state what the
source promises about those functions:

- get_configuration lists every sign string exactly once.
- Tree keys are injective per node.
- Sibling probabilities sum to 1.
- A walk over a tree built from all configurations never misses a key.
- Syndrome keys are injective.
- The counts add up to the number of samples.
- 0 <= corrected rate <= uncorrected rate.

Python exceptions are modelled as `Err` results rather than preconditions. Python floats are
modelled as exact `real` values.

The model keeps these behaviours of the code as written:

- `get_configuration` returns an empty list for sizes outside 3..8. It does not raise.
- A missing tree key raises Python's KeyError.
- The dictionary keys are the text of float values, not integers.
- For the syndrome key "0", `logical_error` adds the running corrected total
  (`logical_err`) to the uncorrected rate. It does not add that key's own frequency.
  `Statistics.ZeroKeyUnused` shows that no measured syndrome produces the key "0", so that
  branch is never taken on counts `S_count_P_cond` produces.

## Model

| member | source | states |
|---|---|---|
| Lists.FirstOccurrences | IndirectMeasurements/decoder.py:22-31 | the deduplicated list has no repeats and holds exactly the elements of the input |
| Lists.FirstOccurrencesOrder | IndirectMeasurements/decoder.py:23-31 | deduplication keeps first-seen order: an element listed earlier was first seen earlier in the input |
| Configurations.Signs | IndirectMeasurements/decoder.py:42-47 | a literal row of the table is a sign string with the given numbers of '+' and '-' signs |
| Configurations.Permutations | IndirectMeasurements/decoder.py:20 | itertools.permutations(s, r) yields no arrangement exactly when r exceeds len(s) |
| Configurations.PermutationsExactly | IndirectMeasurements/decoder.py:20-21 | the full-length permutations of a string are exactly its rearrangements (same multiset of letters) |
| Configurations.GetPerm | IndirectMeasurements/decoder.py:13-32 | get_perm returns the permutations with each arrangement kept at its first occurrence; at full length it lists every rearrangement of the string exactly once |
| Configurations.SignMultisetsCover | IndirectMeasurements/decoder.py:42-47 | the hard-coded table for numb qubits has one sign string of length numb - 1 for each error count 0 .. numb - 1 |
| Configurations.RearrangementOfRow | IndirectMeasurements/decoder.py:42-47 | a string rearranges some row of the table for numb qubits exactly when it is a sign string of length numb - 1 |
| Configurations.ConfigurationsOfTable | IndirectMeasurements/decoder.py:48-77 | concatenating the deduplicated permutations of the table rows lists every sign string of length numb - 1, each once |
| Configurations.CollectConfigurations | IndirectMeasurements/decoder.py:48-77 | the loop that extends the list with get_perm of each table row builds the rows' deduplicated permutations, concatenated in row order |
| Configurations.GetConfiguration | IndirectMeasurements/decoder.py:35-79 | for 3 <= numb <= 8 the result is the table rows' deduplicated permutations in row order, has no duplicates and holds exactly the sign strings of length numb - 1; for any other numb it is empty |
| Basis.InitialBasis | IndirectMeasurements/decoder.py:188-198 | before the scan, qubit 0 holds the logical basis when it is X, Y or Z (no entry otherwise) and every other qubit holds 'I' |
| Basis.FirstLabel | IndirectMeasurements/decoder.py:200-204 | a label other than 'I' that the scan settles on at position i is one that some stabilizer holds at i |
| Basis.FirstLabelIsFirst | IndirectMeasurements/decoder.py:200-204 | the scanned label of a position is 'I' exactly when every stabilizer has 'I' there; otherwise it is the label of the first stabilizer, in list order, that does not |
| Basis.ScanStabilizer | IndirectMeasurements/decoder.py:200-204 | one pass of the del/insert loop keeps non-'I' entries, fills 'I' entries from the stabilizer, and raises IndexError exactly when the stabilizer is longer than B |
| Basis.GetB | IndirectMeasurements/decoder.py:183-205 | get_B raises IndexError exactly for an empty stabilizer list, a logical label outside X/Y/Z, or an overlong stabilizer; otherwise B has len(S[0]) entries, B[0] is the logical label and B[i] is the first non-'I' stabilizer label at i |
| Projectors.Selected | IndirectMeasurements/decoder.py:139-149 | 'X' and 'Y' select their own basis; every other label, 'I' included, selects Z |
| Projectors.FactorAt | IndirectMeasurements/decoder.py:138-177 | the factor at position j of qubit i's projector is the identity exactly when j != i; it is an unrotated spin projector exactly at qubit 0, position 0; otherwise it projects on the up or down vector of the basis B[i] selects |
| Projectors.MeasProjectors | IndirectMeasurements/decoder.py:135-180 | one (up, down) pair per qubit, each of len(B) factors: qubit 0 gets an unrotated spin projector, qubit i its basis projector at position i, identity elsewhere |
| Projectors.UpDownComplementary | IndirectMeasurements/decoder.py:138-177 | the up and down projectors of a qubit differ only at that qubit's position, where they project on opposite eigenvectors of the same basis |
| ProbabilityTree.KeyRoot | IndirectMeasurements/decoder.py:240-241 | the key of the root is 2^n |
| ProbabilityTree.KeyStep | IndirectMeasurements/decoder.py:252-262 | taking '+' (or '-') at step i moves the key up (or down) by 2^n / 2^i, as both the builder and the sampler compute it |
| ProbabilityTree.KeyOddMultiple | IndirectMeasurements/decoder.py:240-263 | after k <= n steps the key is 2^(n-k) times an odd integer |
| ProbabilityTree.Key | IndirectMeasurements/decoder.py:240-262 | every key, as the builder (lines 240-262) and the sampler (lines 276-281) compute it, lies strictly between 0 and twice the root key 2^n |
| ProbabilityTree.KeyInjective | IndirectMeasurements/decoder.py:252-263 | equal keys come from paths that take the same branch at every step, at any depth: distinct nodes get distinct keys |
| ProbabilityTree.NormalizedPair | IndirectMeasurements/decoder.py:249-260 | two non-negative weights, not both zero, normalise to probabilities in [0, 1] that sum to 1 |
| ProbabilityTree.NodeProb | IndirectMeasurements/decoder.py:245-261 | the probability stored for a step is not-a-number when both branch weights sum to zero, and lies in [0, 1] when they are non-negative and not both zero |
| ProbabilityTree.SiblingsSumToOne | IndirectMeasurements/decoder.py:243-263 | with non-negative branch weights that are not both zero, the probabilities recorded for the two children of a node lie in [0, 1] and sum to 1 |
| ProbabilityTree.SameBranchesSameState | IndirectMeasurements/decoder.py:243-263 | the density matrix reached and the probability recorded depend only on the branches a path takes |
| ProbabilityTree.RecordBranch | IndirectMeasurements/decoder.py:244-263 | one pass of the inner loop body moves the key, the density matrix and the dictionary from step i of the configuration to step i + 1 |
| ProbabilityTree.Record | IndirectMeasurements/decoder.py:239-263 | recording a configuration keeps every key already present and adds the key of each recorded step |
| ProbabilityTree.RecordConfiguration | IndirectMeasurements/decoder.py:239-263 | one pass of the inner loop raises IndexError exactly when the configuration has as many steps as the pattern has qubits, and otherwise records the probability of every prefix at that prefix's key |
| ProbabilityTree.GenProbDict | IndirectMeasurements/decoder.py:235-269 | gen_prob_dict raises IndexError exactly for an empty pattern or a configuration too long for it, and otherwise builds the dictionary of all recorded prefixes in configuration order |
| ProbabilityTree.TreeFaithful | IndirectMeasurements/decoder.py:239-263 | every entry of the built dictionary is the probability recorded for some path at that path's key |
| ProbabilityTree.Tree | IndirectMeasurements/decoder.py:239-263 | the key of every prefix of every configuration is in the dictionary built from the configurations |
| ProbabilityTree.TreeLookup | IndirectMeasurements/decoder.py:239-263 | the value left at any prefix's key is that prefix's own probability, so overwrites by later configurations store the same value |
| Sampler.Walk | IndirectMeasurements/decoder.py:279-289 | the walk over the draws fails only with KeyError; a walk that succeeds takes one '+' or '-' per draw |
| Sampler.WalkStep | IndirectMeasurements/decoder.py:280-289 | in a successful walk the right child's key at step i is present, and step i goes up exactly when the probability stored there is above draw i |
| Sampler.SampleStep | IndirectMeasurements/decoder.py:280-289 | one pass of the sampling loop raises KeyError only when the walk over the first i draws fails; otherwise the new key is that of the node the walk reaches after i draws, and the observables so far are those of its path, the rest still 1 |
| Sampler.Observables | IndirectMeasurements/decoder.py:275-289 | the observables have one entry per photon plus qubit 0; entry 0 is 1, each other entry is ±1, and it is 1 exactly when that step went up |
| Sampler.Parity | IndirectMeasurements/decoder.py:293-301 | measuring a Pauli string raises only IndexError, and with ±1 observables its value is +1 or -1 |
| Sampler.ParityFacts | IndirectMeasurements/decoder.py:293-301 | a measured Pauli string fails with IndexError exactly when a non-'I' position lies past the observables; otherwise it is +1 or -1 by the parity of the -1 observables at its non-'I' positions; an all-'I' string gives 1 |
| Sampler.Measure | IndirectMeasurements/decoder.py:294-301 | the product loop computes the product of the observables at the non-'I' positions, raising IndexError as Python would |
| Sampler.SampleObservables | IndirectMeasurements/decoder.py:275-289 | the sampling loop raises KeyError exactly when the walk meets a missing key; otherwise its observables are those of the walk |
| Sampler.GetLogicalOp | IndirectMeasurements/decoder.py:274-303 | get_logical_op raises KeyError for a missing key and IndexError for an overlong Pauli string; otherwise it returns the parity of M and one parity per stabilizer, in order |
| Sampler.ChildrenRecorded | IndirectMeasurements/decoder.py:243-263 | in a tree built from all branches, both children of every reachable node are present with their recorded probabilities |
| Sampler.WalkSucceeds | IndirectMeasurements/decoder.py:279-282 | over a tree built from all branches of length n, a walk of at most n draws never raises KeyError |
| Sampler.WalkOverFullTree | IndirectMeasurements/decoder.py:279-282 | over such a tree every probability the walk compares with a draw is the one gen_prob_dict recorded for that child |
| Sampler.TreeSiblingsSumToOne | IndirectMeasurements/decoder.py:245-263 | in such a tree the two children of a reachable node hold probabilities in [0, 1] that sum to 1 |
| Sampler.NoKeyErrorWithAllConfigurations | IndirectMeasurements/decoder.py:274-289 | with the configurations get_configuration(n + 1) lists, for 2 <= n <= 7, get_logical_op never raises KeyError |
| Statistics.ConditionalMS | IndirectMeasurements/decoder.py:209-213 | the result is 0 or 1, and it is 1 exactly when the logical value is -1 |
| Statistics.CorrectedConditional | IndirectMeasurements/decoder.py:215-216 | the result is P or 1 - P, at most both and at most 1/2, and non-negative for a probability |
| Statistics.CorrectedSymmetric | IndirectMeasurements/decoder.py:215-216 | correcting P and correcting 1 - P give the same error |
| Statistics.Join | IndirectMeasurements/decoder.py:330 | the joined key has at least one character per stabilizer value, and it starts with '-' exactly when the first value is negative |
| Statistics.JoinInjective | IndirectMeasurements/decoder.py:330 | different ±1 syndromes get different joined keys |
| Statistics.ZeroKeyUnused | IndirectMeasurements/decoder.py:330 | no ±1 syndrome is joined to the key "0" |
| Statistics.TallyBounds | IndirectMeasurements/decoder.py:331-343 | a key counts at most as many logical errors as samples, and a key occurs exactly when it has a sample |
| Statistics.CountSample | IndirectMeasurements/decoder.py:331-343 | one loop step appends a new key to S_measured and starts it at (P_dict, S_count) = (p_cond, 1), adds (p_cond, 1) to a known key, and changes no other entry |
| Statistics.SCountPCond | IndirectMeasurements/decoder.py:324-344 | S_measured lists the keys in first-seen order, each once; P_dict and S_count have exactly the sampled keys; S_count counts the samples and P_dict the logical errors per key |
| Statistics.TalliesPartition | IndirectMeasurements/decoder.py:324-344 | the counts over the first-seen keys add up to the number of samples, or of logical errors |
| Statistics.CountsOfSamples | IndirectMeasurements/decoder.py:324-344 | on S_count_P_cond's output both dictionaries share their keys, 0 <= P_dict[k] <= S_count[k] with S_count[k] > 0, and the S_count values add up to the number of samples |
| Statistics.LogicalError | IndirectMeasurements/decoder.py:218-231 | the loop over the keys in dictionary order computes the two rates key by key, raising KeyError for a key missing from S_count and ZeroDivisionError for a zero divisor |
| Statistics.AddRates | IndirectMeasurements/decoder.py:221-230 | the loop body for one key computes the rates AddKey specifies |
| Statistics.AddKey | IndirectMeasurements/decoder.py:221-230 | one key raises KeyError exactly when it is missing from S_count and ZeroDivisionError for a zero divisor; the key "0" adds the new corrected total to the uncorrected rate; any other key with 0 <= P_dict <= S_count and monte_steps > 0 raises the corrected rate by no more than the uncorrected one, and never lowers it |
| Statistics.LogicalErrorOf | IndirectMeasurements/decoder.py:218-231 | logical_error over keys in a given order raises only KeyError or ZeroDivisionError |
| Statistics.LogicalErrorFails | IndirectMeasurements/decoder.py:218-231 | logical_error fails exactly when a key is missing from S_count, a non-"0" key has count 0, or monte_steps is 0 with a key present |
| Statistics.CorrectedTermBound | IndirectMeasurements/decoder.py:226-230 | a non-"0" key adds between 0 and P_dict/steps to the corrected rate, the amount it adds to the uncorrected one |
| Statistics.LogicalErrorBounds | IndirectMeasurements/decoder.py:218-231 | with 0 <= P_dict[k] <= S_count[k], S_count[k] > 0 and monte_steps > 0, logical_error succeeds and 0 <= logical_err <= no_corr_error |
| Statistics.NoCorrectionRate | IndirectMeasurements/decoder.py:225-230 | without the key "0" the uncorrected rate is the sum of P_dict divided by monte_steps |
| Statistics.ErrorRatesOfSamples | IndirectMeasurements/decoder.py:218-231 | on the dictionaries S_count_P_cond builds from ±1 syndromes, logical_error succeeds, the uncorrected rate is the fraction of samples with logical value -1, and the corrected rate lies between 0 and it |

## Left out

- The numeric content of `prob_den` (IndirectMeasurements/decoder.py:81-85) is not modelled. It is a matrix product, a complex trace and a normalisation. The model takes it as a function parameter `probDen` over abstract operator and matrix types, returning a real weight and the collapsed state.
- The numeric content of the projectors in `meas_projectors` (IndirectMeasurements/decoder.py:96-133) is not modelled: outer products, `1/np.sqrt(2)`, complex entries and the rotation `measurement_rot_unitary`. The file that defines the rotation is not part of this model. The model keeps only which factor sits at which Kronecker position.
- `print(i)` in `meas_projectors` (IndirectMeasurements/decoder.py:137) has no effect on the result and is left out.
- The nested duplicate-counting loop of `get_perm` (IndirectMeasurements/decoder.py:24-27) computes a value that is never used and is left out. `Configurations.GetPerm` takes the string itself; the source takes a one-element list and reads its element 0.
- `np.random.uniform()` (IndirectMeasurements/decoder.py:282) becomes an input sequence of draws, one per photon.
- Floats are modelled as exact reals. A key is the text of a float value; it is modelled as the value itself. The keys are dyadic rationals, 2^(n-k) times an odd integer, exact in binary for the supported sizes.
- ProbabilityTree.Ratio: a zero norm gives not-a-number, as numpy's 0/0 does. A non-zero weight over a zero norm, which numpy turns into an infinity, also gives not-a-number. That case only arises with weights of opposite sign.
- The complex type of the trace that `prob_den` returns is not modelled. Its weights are real.
- `S_count_P_cond` (IndirectMeasurements/decoder.py:324-344) calls `get_logical_op` itself, once per step. `Statistics.SCountPCond` takes the sequence of `(M, S_meas)` samples those calls return, so sampling and counting are proved separately. It also takes the global `monte_steps` as a parameter. It returns `S_measured` beside the two dictionaries, because `S_measured` is their key order.
- Statistics.LogicalError: Python iterates `P_dict` in insertion order; the model takes that order as the parameter `keys`. The order matters only for the "0" branch.
- `generate`, `simulate_monte` and the `__main__` block (IndirectMeasurements/decoder.py:309-439) are left out. They sweep parameters, draw plots, read JSON files and print. They also call `three_star`, `GHZ_fid` and `S_count_P_cond_loss`, which are not part of this model.
