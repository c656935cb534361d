# ActiWearCheck configuration validator and file bucketing, in Dafny

This project models the setup part of ActiWearCheck, a tool that audits
whether a Fitbit/Fitabase dataset reflects real device wear. The version of
`actiwearcheck/actiwearcheck.py` modelled here holds two pieces of logic:

- `parameter_consistency_check` decides from a configuration's `parameter`,
  `threshold` and `hourly` entries whether a run may start. In hourly mode the
  threshold must be a list of two values (hours per day, minutes per hour),
  with at most 24 hours, at most 60 minutes and no negative component. In
  minute mode it must be an `int` (a `bool` is one, in Python) and not
  negative. For the parameter `"HR"` a threshold above 1440 minutes is
  refused. A zero threshold only prints a warning. The checks run in a fixed
  order, and the first one that fails decides the message.
- `get_files` walks the sorted directory listing. It appends the joined path
  of every `.csv` name to each of six lists (heart-rate wear time, minute
  calories, minute steps, daily steps, daily calories, sync events) whose
  Fitabase suffix the name contains.

Modules:

- `PyValues` (values.dfy): the Python values a threshold can be.
- `ParameterCheck` (parameter_check.dfy): the validator, as pure functions.
  The outcome datatype records the lines the source would print, and whether
  it returns True (`Valid`), returns False (`Invalid`) or raises a TypeError.
  `Accepts` is a declarative statement of when the result is True. `Check` is
  proved against it.
- `PyStrings` (py_strings.dfy): Python's `sub in s` and `str` ordering, and
  `sorted()` on a list of names. `sorted()` is modelled as an insertion sort.
  It is proved sorted and a permutation of its input, and a list has only one
  sorted permutation, so Python's own algorithm gives the same list.
- `FileBuckets` (get_files.dfy): the bucketing loop as a method
  (`Bucketize`) with a `while` loop and one local list per bucket, called by
  `GetFiles` on the sorted listing. It is proved equal to a
  specification function `Select`, and each bucket is proved to hold exactly
  the right paths, each as often as the listing holds its name, in sorted
  order.

## Model

| member | source | states |
|---|---|---|
| ParameterCheck.Check | actiwearcheck/actiwearcheck.py:16-53 | returns True exactly when `Accepts` holds; a TypeError can occur only in hourly mode with a two-element list, and the only line printed before it is the zero warning, exactly when that list is within bounds with a zero component; a False result prints one error and no warning; every other line printed is a warning; at most one line is printed per call |
| ParameterCheck.CheckHourly | actiwearcheck/actiwearcheck.py:19-34 | a threshold that is not a two-element list is refused with the list-shape error before any bound is looked at; hours above 24 give the 24-hour error whatever the minutes are (so [25, -1] reports hours, not the sign); minutes above 60 come next, then negatives; True exactly for 0..24 hours and 0..60 minutes with both bounds included, and never for "HR"; a TypeError exactly when a non-number is compared or "HR" reaches the 1440 comparison with the list; a TypeError from the "HR" comparison comes after the zero warning when a component is 0, and one from a non-number comes before anything is printed; a zero component only adds the warning |
| ParameterCheck.CheckScalar | actiwearcheck/actiwearcheck.py:35-49 | a non-int (including a float) gives the integer error, a negative int the negative error, and an "HR" value above 1440 the 1440-minute error; True exactly for a non-negative int that is at most 1440 when the parameter is "HR"; never raises; 0 is accepted with the warning, and any other accepted value prints nothing |
| ParameterCheck.HrCap | actiwearcheck/actiwearcheck.py:47-53 | the 1440-minute bound is checked for "HR" only, so other parameters pass any threshold; for "HR" a non-number threshold raises TypeError and a number above 1440 is refused; warnings printed before are kept |
| ParameterCheck.Scenarios | actiwearcheck/actiwearcheck.py:16-53 | "calories" and "steps" accept 5000 while "HR" refuses it and accepts 1440; [24, 60] is accepted; [25, -1] gives the 24-hour error; True is accepted as an int, 30.0 is refused as a non-int; hourly "HR" [0, 30] prints the zero warning and then raises TypeError |
| PyStrings.ContainsIff | actiwearcheck/actiwearcheck.py:73-85 | the substring test used for ".csv" and each suffix holds exactly when the pattern occurs at some index of the name |
| PyStrings.BelowIrreflexive | actiwearcheck/actiwearcheck.py:72 | no name sorts before itself |
| PyStrings.BelowTransitive | actiwearcheck/actiwearcheck.py:72 | the string order `sorted()` uses is transitive |
| PyStrings.BelowTotal | actiwearcheck/actiwearcheck.py:72 | of two different names one sorts before the other |
| PyStrings.NotBelowTransitive | actiwearcheck/actiwearcheck.py:72 | "sorts no later than" is transitive |
| PyStrings.BelowCommonPrefix | actiwearcheck/actiwearcheck.py:72-85 | putting the same prefix before two strings does not change their order |
| PyStrings.Insert | actiwearcheck/actiwearcheck.py:72 | inserting a name into a sorted list keeps it sorted and adds exactly that name |
| PyStrings.Sort | actiwearcheck/actiwearcheck.py:72 | the sorted listing is sorted and a permutation of the listing |
| PyStrings.SortedUnique | actiwearcheck/actiwearcheck.py:72 | two sorted permutations of one list are equal, so any sorting algorithm gives the model's order |
| FileBuckets.SortNames | actiwearcheck/actiwearcheck.py:72 | the listing the loop visits is sorted and holds exactly the names the directory listing returned |
| FileBuckets.JoinInjective | actiwearcheck/actiwearcheck.py:75-85 | joining two different names to the same directory gives two different paths |
| FileBuckets.JoinKeepsOrder | actiwearcheck/actiwearcheck.py:72-85 | paths joined to one directory compare as their names do |
| FileBuckets.SelectMembers | actiwearcheck/actiwearcheck.py:73-85 | a name's path is in a bucket exactly when the name contains ".csv" and that bucket's suffix, so a name goes to every bucket whose suffix it contains and a name without ".csv" goes nowhere; a bucket holds nothing else |
| FileBuckets.SelectSorted | actiwearcheck/actiwearcheck.py:72-85 | a bucket built from a sorted listing is sorted: each bucket keeps the listing's order |
| FileBuckets.SelectCount | actiwearcheck/actiwearcheck.py:73-85 | a bucket holds a name's path as many times as the visited names hold the name when the name contains ".csv" and the bucket's suffix, and never otherwise |
| FileBuckets.BucketFacts | actiwearcheck/actiwearcheck.py:72-85 | every bucket built from the sorted listing is sorted; it holds a listed name's path exactly when the name is placed in it, as many times as the listing holds the name; it holds no other string |
| FileBuckets.BucketsClassified | actiwearcheck/actiwearcheck.py:72-85 | six lists that are the `Select` of the sorted listing for their suffixes are all sorted; each holds the path of every listed name placed in it, as many times as the listing holds the name, and no other string |
| FileBuckets.Bucketize | actiwearcheck/actiwearcheck.py:66-85 | the loop, with one list per suffix, leaves in each list the `Select` of the visited names for that list's suffix |
| FileBuckets.GetFiles | actiwearcheck/actiwearcheck.py:56-85 | the six lists the loop builds are the `Select` of the sorted listing for their suffixes, and each of them is sorted and holds the path of a listed name exactly when the name contains ".csv" and its suffix, as many times as the listing holds the name, and no other string |

## Left out

- `read_configurations` (actiwearcheck/actiwearcheck.py:144-147): reading a YAML file through a library is I/O.
- `ActiWearCheck` (actiwearcheck/actiwearcheck.py:91-142): it defaults the path to the working directory, calls `check_configuration_integrity`, which the file does not define, and prints. It contains no logic to model.
- The command-line block (actiwearcheck/actiwearcheck.py:149-158): argument parsing.
- actiwearcheck/fitbit_importer.py: token files, credentials and a call to the Fitbit web API. As written, it also cannot run: it mixes tabs and spaces, reads an undefined `filename`, and reads `args.secret` where the option is spelled `--secrect`.
- Printing: the lines `parameter_consistency_check` prints are returned in the outcome (`Outcome.Printed`, with exact texts in `Text`), not written out.
- Missing configuration keys, which raise KeyError, are not modelled. The configuration always has all three entries.
- `parameter` is a string and `hourly` is a boolean in the model. Python would accept any value for `parameter` (only equality with "HR" matters) and would use the truthiness of any value for `hourly`.
- Floats are modelled as exact reals. NaN, the infinities and rounding are not modelled.
- `os.listdir` is a parameter: `GetFiles` receives the names the listing returned. The source lists `path`, a name that `get_files` never defines; it receives `data_path`. The model lists the directory it is given, so the NameError the code as written would raise is not modelled.
- `get_files` returns nothing (line 86): the six lists are lost when it returns. The model returns them, since only the classification they hold has meaning.
- `os.path.join` is modelled for POSIX paths and for names without a separator, which is all `os.listdir` returns.
- Daily aggregation, the resting baseline, the wear classifiers, the alignment check and the sync-gap analysis do not exist in this version of the code, so they are not modelled.
- The docstring of `ActiWearCheck` (actiwearcheck/actiwearcheck.py:103-104) gives every threshold a range of 0 to 1440 minutes, whatever the parameter. `parameter_consistency_check` enforces the upper bound for "HR" only (line 47), so a "calories" or "steps" threshold of 5000 is accepted. `ParameterCheck.Scenarios` states both cases. The hourly ranges of lines 106-107 (0 to 24 hours, 0 to 60 minutes) are the ones the code enforces. Nothing checks the 0.01 to 1 range that line 123 gives `alignement_arg`. The model follows the code.
