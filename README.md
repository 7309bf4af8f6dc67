# control_input, modelled in Dafny

The quantronauts game reads the player's choices through one validator,
`control_input(options, input_ctl)` in `quantronauts/src/function.py`. It
decides whether a menu number or a gate label is acceptable and, when it is
not, prints a hint so that the caller can ask again:

- an absent choice (`None`) is rejected and nothing is printed;
- an `int` choice is accepted exactly when it lies in `1..3`, whatever
  `options` is; a rejected number gets the hint
  `Please give a number between 0 and N.`, where `N` is `options` when
  `options + 1 < 3` and `3` otherwise;
- any other choice is a label, accepted exactly when it is a member of the
  `options` list; a rejected label gets the hint
  `Please give a valid gate between L`, where `L` is `str(options)`, with no
  full stop at the end.

The model has three modules:

- `Wrappers` (`wrappers.dfy`): `Option` and `Result`.
- `PyFormat` (`py_format.dfy`): Python's `str()` of the two kinds of value the
  hints substitute. `FormatInt` is `str(n)` for an `int` and comes with a
  reader `ReadInt` proved to be its exact inverse. `StrRepr` is `repr(s)` for
  a `str`. It covers the choice of quote and the escapes of the quote, the
  backslash, tab, newline, carriage return and the other ASCII control
  characters, and comes with a reader `Unescape` that undoes them. `ListRepr`
  is `str(xs)` for a list of `str`: each item's `repr`, joined by `", "`,
  inside brackets.
- `Validator` (`control_input.dfy`): the validator, `ControlInput`. The candidate is the
  tagged union `Candidate = Num(int) | Label(string)` wrapped in `Option` for
  `None`. The options are `Options = Count(int) | Labels(seq<string>)`. The
  answer is `Verdict(accepted, hint)`, where `hint` is the line the program
  prints, returned instead of printed.

Python raises `TypeError` on two pairings of arguments. The first is an
out-of-range number with a list of options, where `options + 1` fails. The
second is a label with an int count, where `in` fails. The model does not
exclude these by a precondition: `ControlInput` returns
`Failure(CannotConcatenate)` or `Failure(NotIterable)` on exactly these
pairings. So the function is total, and it keeps Python's answer for an
in-range number with a list of options (accepted, no error).

Unlike the two number hints, the label hint has no full stop at the end;
the model keeps it that way. The hints give `0`
as the lower end although `0` is rejected. They also give the count as the
upper end when it is below 2, although 2 and 3 are still accepted then. The
model keeps both as the code has them.

## Model

| member | source | states |
|---|---|---|
| `Validator.ControlInput` | quantronauts/src/function.py:1-15 | `None` is rejected with no hint, whatever the options. A number is accepted iff `0 < k <= 3`, whatever the options. A rejected number with an int count gets `RangeHint(count)` when the count is below 2 and `RangeHint(3)` otherwise. A label with a list is accepted iff it is in the list, and otherwise gets `GateHint(list)`. An accepted answer has no hint, and every other rejection has exactly one. The answer is a `TypeError` exactly on the two mismatched pairings, with the matching error. |
| `Validator.RangeHint` | quantronauts/src/function.py:7-9 | The bound formatted into a range hint reads back from the hint text, so different bounds give different hints. |
| `Validator.GateHint` | quantronauts/src/function.py:14 | The label hint is `"Please give a valid gate between "` followed by `str(list)` of the options, with no full stop. It ends in `]` and shows the `repr` of every valid label. |
| `Validator.NumericAcceptanceIgnoresOptions` | quantronauts/src/function.py:3-5 | Two calls with the same number and any two options values agree on acceptance. |
| `Validator.NumericHintNamesBound` | quantronauts/src/function.py:6-9 | For an out-of-range number and an int count `n`, the call rejects with a hint whose bound reads back as `n` when `n < 2` and as `3` otherwise. |
| `Validator.GateHintListsOptions` | quantronauts/src/function.py:11-14 | For a label that is not among the options, the call rejects with a hint in which the `repr` of every option occurs. |
| `Validator.HintsDistinguishRejections` | quantronauts/src/function.py:7-14 | A label hint never reads as a range hint, and no range hint equals a label hint. |
| `PyFormat.FormatNat` | quantronauts/src/function.py:7 | `str(n)` of a non-negative int is a canonical numeral: all digits, with no leading zero unless it is `"0"`. It starts with `'0'` iff `n == 0`. |
| `PyFormat.FormatInt` | quantronauts/src/function.py:7 | `str(n)` of any int reads back as `n`. |
| `PyFormat.ReadFormatNat` | quantronauts/src/function.py:7 | Reading the digits of `str(n)` gives back `n`. |
| `PyFormat.FormatReadNat` | quantronauts/src/function.py:7 | Every canonical numeral is `str` of the value it denotes. |
| `PyFormat.ReadIntInvertsFormatInt` | quantronauts/src/function.py:7 | `ReadInt(s) == Some(n)` iff `str(n) == s`, for every int `n`, negative ones included. |
| `PyFormat.FormatIntInjective` | quantronauts/src/function.py:7 | Two ints with the same `str` are equal. |
| `PyFormat.UnescapeEscape` | quantronauts/src/function.py:14 | For either quote character, undoing the escapes of an escaped text gives back the text. |
| `PyFormat.StrRepr` | quantronauts/src/function.py:14 | `repr(s)` starts and ends with the quote Python picks for `s` (`"` iff `s` holds a `'` and no `"`), and the text between the quotes reads back as `s`. |
| `PyFormat.EscapePlain` | quantronauts/src/function.py:14 | Escaping leaves printable ASCII text with no `'` and no backslash unchanged. |
| `PyFormat.PlainStrRepr` | quantronauts/src/function.py:14 | The `repr` of such a label is the label between single quotes. |
| `PyFormat.JoinReprs` | quantronauts/src/function.py:14 | The `", "`-joined reprs of a list contain the repr of each item. |
| `PyFormat.ListRepr` | quantronauts/src/function.py:14 | `str(list)` is bracketed and contains the repr of each item of the list. |

## Left out

- Console output: `print` becomes the returned `hint`. The newline that `print` adds is not part of it.
- Deterministic: not stated as a lemma. `ControlInput` is a Dafny function of its two arguments, reads no state and changes none, so equal arguments give equal answers by construction.
- Python's `bool` is a subclass of `int`, so `True` and `False` take the numeric branch, as a candidate and as `options` alike (`True + 1 < 3`). The model has no booleans: pass them as `Num(1)`/`Num(0)` and `Count(1)`/`Count(0)`. The hint text then differs: Python formats `options=True` as `...between 0 and True.`, while `Count(1)` gives `...between 0 and 1.`.
- `PyFormat.FormatInt`: renders every int. In current Python releases (3.11 and later, and the 3.10.7, 3.9.14, 3.8.14 and 3.7.14 security releases), `str()` and `format()` of an int with more than 4300 digits raise `ValueError` by default; that version-dependent error path is not modelled.
- Candidates of other types (a float, a tuple, ...) are not modelled. Every non-int candidate is a `Label` string.
- Options of other collection types are not modelled. With a `str` as `options`, Python's `in` is a substring test, and `str()` of a tuple or dict renders differently. Every label collection is a list of `str`.
- `PyFormat.StrRepr`: non-ASCII characters, the C1 control characters U+0080 to U+009F among them, are always written as themselves. Python escapes the ones its Unicode database calls non-printable, and that table is not modelled.
- The surrounding caller (menus, the re-prompt loop, the game) is not part of this model.
