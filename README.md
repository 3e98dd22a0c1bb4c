# easyOrder order lookup: a Dafny model

easyOrder is a small desktop form, written in Python, for looking up App Store
orders. The user enters a private key file (`.p8`), a key id, an issuer id, a
bundle id and an order id, and picks an environment. `Widget.on_submit` checks
these inputs in a fixed order. It then saves them to `eoconfig.json` in the
temporary directory and starts a background `Worker`. `Worker.run` calls the
App Store Server API's order lookup. For each signed transaction (a JWS in
compact serialisation) it decodes the base64url payload segment and emits the
pretty-printed JSON. A non-zero status, an APIException or a ConnectionError
makes it emit one error string instead; the other failures are listed below.

This project models that logic and proves properties about it:

- `base64.dfy` (`Base64`) covers the base 64 encodings of RFC 4648: section 4,
  the standard alphabet with `=` padding, and section 5, the URL and filename
  safe alphabet. Section 2 of RFC 7515 writes the latter without padding. It
  also models the decoder behind `base64.b64decode(s)` with `validate=False`,
  which is CPython's `binascii.a2b_base64` in non-strict mode. That decoder is
  written as its character-by-character state machine:
  - characters outside the alphabet are skipped;
  - a `=` before the third character of a quantum is ignored;
  - enough `=` after that point end decoding;
  - a quantum left open at the end raises `binascii.Error`;
  - a non-ASCII `str` raises `ValueError` first.
- `token_decode.dfy` (`TokenDecode`) covers the steps applied to one token:
  `split('.')[1]`, the `-`→`+` and `_`→`/` replacements, the `=` padding loop,
  the decode, and the rendering. It proves the round trip against base64url,
  the raw-token fallback and the exceptions that escape.
- `validation.dfy` (`Validation`) models the pattern `^[A-Za-z0-9\-\.]+$`
  as the regex engine runs it. A lemma states the set of accepted texts.
- `worker.dfy` (`WorkerThread`) holds the `Worker` class with its fields and
  `set_value`. Its `Run` method is proved against `RunSpec`. Building the
  client happens before the `try`, so a failure there is never handled: the
  parameter `build` says whether the constructor returns. The network lookup
  is the parameter `lookup`, a function of the worker's fields. JSON
  parsing and printing (`json.dumps(json.loads(b), ensure_ascii=False,
  indent=4)`) is the parameter `render`.
- `submission.dfy` (`Submission`) holds the form values and the order of the
  submit checks. It also holds the settings written and restored, and the
  `Widget` class with `on_start`, `on_submit`, `callback` and `on_clear`.
- `opt.dfy` (`Opt`) is the Option type.

Behaviour of the code that this model follows:

- Only `binascii.Error` falls back to emitting the raw token.
- Other failures escape `run` and end it:
  - a token without `.` raises `IndexError`;
  - a non-ASCII payload raises `ValueError`;
  - a payload that `json.loads` rejects raises its error;
  - an exception of the client's constructor, which runs before the `try`, is
    never handled, and nothing is emitted.

  The strings emitted before the failure stay emitted.
- Each emitted string reaches `callback`, which replaces the result text, so the text left shown is the last string
  emitted (`Widget.DeliverAll`).

## Model

| member | source | states |
|---|---|---|
| `Base64.SextetOf` | widget.py:54 | The decoder's table gives a value only to standard-alphabet characters, and that value encodes back to the character. `=`, `-`, `_`, `.` and non-ASCII characters have no value. |
| `Base64.A2b` | widget.py:54 | The decoder's state machine only appends to the bytes already read, at most one byte per character, and never gives the non-ASCII error. `DecodeEncode`, `A2bAbsorb` and `ClosingPads` state what it decodes. |
| `Base64.B64Decode` | widget.py:54 | `b64decode` of a `str` gives the non-ASCII error exactly when the text is not ASCII, and otherwise runs `A2b` from the start state; it decodes at most one byte per character. `EncodeRoundTrip` is its round trip. |
| `Base64.DecodeEncode` | widget.py:54 | From the start of a quantum, decoding the padded standard encoding of any bytes appends exactly those bytes. |
| `Base64.EncodeRoundTrip` | widget.py:54 | `b64decode(encode(b)) == b` for every byte string `b` (RFC 4648, section 4). |
| `Base64.A2bAbsorb` | widget.py:54 | A run of data characters leads the decoder to a state that depends only on that run. That state's quantum position is the run length mod 4. |
| `Base64.ClosingPads` | widget.py:52-54 | After data characters, the `=` that complete the quantum end decoding with the bytes read so far. After one leftover character they are ignored and decoding fails with binascii.Error. |
| `TokenDecode.Split` | widget.py:49 | `str.split('.')` yields at least one field. No field contains `.`, and joining the fields with `.` gives back the token. |
| `TokenDecode.PayloadSegment` | widget.py:49 | `split('.')[1]` exists only when the token has a `.`, and holds no `.` itself. `NoSegmentIffNoDot` and `SegmentBetweenFirstTwoDots` state exactly when it exists and what it is. |
| `TokenDecode.SegmentBetweenFirstTwoDots` | widget.py:49 | For `header.payload` followed by nothing or by `.`…, the segment taken is exactly `payload`. |
| `TokenDecode.NoSegmentIffNoDot` | widget.py:49 | Index 1 is missing (IndexError) exactly when the token contains no `.`. |
| `TokenDecode.Replace` | widget.py:50-51 | `str.replace` of one character keeps the length and changes exactly the positions holding the old character. |
| `TokenDecode.Normalise` | widget.py:50-51 | The two replacements keep the length. `NormaliseSpec` states the change at each position, and `NormaliseUrlChars` that it turns base64url into standard base 64. |
| `TokenDecode.NormaliseSpec` | widget.py:50-51 | Normalisation maps `-`→`+` and `_`→`/` position by position. It keeps the length, the order and every other character, and leaves no `-` or `_`. |
| `TokenDecode.NormaliseUrlChars` | widget.py:50-51 | Normalising the base64url characters of any bytes gives their standard base 64 characters. |
| `TokenDecode.Padded` | widget.py:52-53 | Padding keeps the input as a prefix. It appends only `=`, at most 3 of them, and ends at a length that is a multiple of 4. |
| `TokenDecode.PaddedIdempotent` | widget.py:52-53 | A length that is already a multiple of 4 is left unchanged, so padding twice is padding once. |
| `TokenDecode.PadToQuad` | widget.py:52-53 | The `while len(temp) % 4 != 0: temp += '='` loop computes `Padded`. |
| `TokenDecode.PaddedChars` | widget.py:52-54 | Padding the unpadded standard characters of any bytes gives their RFC 4648 section 4 encoding. |
| `TokenDecode.UrlRoundTrip` | widget.py:50-54 | For every byte string, take the unpadded base64url encoding, then normalise, pad and `b64decode` it. The result is the original bytes. |
| `TokenDecode.DecodeFailsIff` | widget.py:52-57 | For a payload segment over the two alphabets, `b64decode` raises binascii.Error exactly when the segment length is 1 mod 4. It never raises the non-ASCII error. |
| `TokenDecode.TokenMessage` | widget.py:48-58 | The decode block for one token raises IndexError exactly when the token has no `.`, and it emits only when the token has a payload segment. The only exceptions it lets escape are IndexError, the non-ASCII ValueError and the JSON error (the type `TokenError`). `TokenRoundTrip`, `RawTokenFallback` and `NoDotRaises` state which outcome each token gets. |
| `TokenDecode.TokenRoundTrip` | widget.py:49-58 | A token whose payload segment is the base64url encoding of some bytes yields what the renderer makes of those bytes. A JSON failure raises and does not fall back to the token. |
| `TokenDecode.RawTokenFallback` | widget.py:49-58 | Every binascii.Error on the payload segment makes the worker emit the raw token unchanged. Over the alphabets, that happens exactly for segments of length 1 mod 4, and every other length decodes to bytes. |
| `TokenDecode.SkippedCharFallback` | widget.py:49-58 | `h.ab!c` is emitted unchanged: `!` is skipped, three data characters are left over, and decoding fails with "Incorrect padding". |
| `TokenDecode.NoDotRaises` | widget.py:49-58 | A token without `.` raises IndexError, which the binascii.Error handler does not catch. |
| `TokenDecode.ExampleToken` | widget.py:49-56 | `AAA.eyJhIjoxfQ.BBB` is rendered from the bytes of `{"a":1}`. |
| `Validation.LeadingRun` | widget.py:120-122 | The greedy run of class characters from the start ends before the first character outside the class. |
| `Validation.PatternSearch` | widget.py:120-122 | An accepted text is non-empty and starts with a class character. `PatternAccepts` characterises it in both directions. |
| `Validation.PatternAccepts` | widget.py:120-122 | `pattern.search(s)` succeeds exactly for non-empty strings over `A-Z a-z 0-9 - .`, and for such strings followed by one final newline. |
| `Validation.RejectsEmptySlashSpace` | widget.py:120-139 | The empty string and any string containing `/` or a space are refused. |
| `Validation.Examples` | widget.py:120-122 | `abc-123.x` (also with one trailing newline) is accepted; `""`, `a/b` and `a b` are refused. |
| `WorkerThread.EmitAll` | widget.py:47-58 | The loop emits at most one string per transaction. It ends without an exception exactly when every transaction emitted, and the exception that ends it early comes from the decode block. `EmitAllSpec` says which strings are emitted. |
| `WorkerThread.RunSpec` | widget.py:42-64 | A client that cannot be built raises before the `try`, and that is the only way `ClientFailure` escapes. Any ending but a valid order gives exactly one outcome: one string emitted or one exception escaping. A valid order emits at most one string per transaction. `LookupFailuresEmitOne` and `ValidOrderOnePerTransaction` give the strings. |
| `WorkerThread.FirstRaise` | widget.py:47-58 | Locates the first transaction whose decode block raises. Every transaction before it emits. |
| `WorkerThread.EmitAllSpec` | widget.py:47-58 | The loop emits one string per transaction, in list order, up to the first exception that escapes. That exception ends the run. |
| `WorkerThread.ValidOrderOnePerTransaction` | widget.py:46-58 | Take status 0 and a list where no transaction raises. Then exactly one string is emitted per transaction, in order, and nothing escapes. |
| `WorkerThread.LookupFailuresEmitOne` | widget.py:42-64 | A client that cannot be built emits nothing and its exception escapes. A non-zero status emits exactly "OrderId is not valid!". An APIException emits `str(e)`, and a ConnectionError emits "HTTPSConnectionPool". Any other exception emits nothing and escapes. |
| `WorkerThread.DecodeToken` | widget.py:48-58 | The decode steps for one transaction give the rendered payload, the raw token on binascii.Error, or the exception that escapes. |
| `WorkerThread.EmitTransactions` | widget.py:47-58 | The loop over the signed transactions returns the strings emitted, in order, and the exception that ended the loop, as `EmitAll` says. |
| `WorkerThread.Worker.constructor` | widget.py:25-32 | A new worker has every field None. |
| `WorkerThread.Worker.SetValue` | widget.py:34-40 | Every field takes its argument. |
| `WorkerThread.Worker.Run` | widget.py:42-64 | `run` builds the client and looks up with the worker's current fields. It returns the strings emitted, in order, and the exception that ended it, as `RunSpec` says. |
| `Submission.Checks` | widget.py:107-139 | `on_submit` makes five checks, and each has its own error text, so the dialog names the failing check. `SubmitProceedsIff` states when all pass. |
| `Submission.FirstFailure` | widget.py:107-139 | Finds the check that ends `on_submit`: it fails and all earlier checks pass. None means every check passes. |
| `Submission.FirstFailureIs` | widget.py:107-139 | The check that ends `on_submit` is determined: it is the failing check preceded only by passing ones. |
| `Submission.SubmitProceedsIff` | widget.py:107-161 | Submission gets past the checks exactly when the key file exists and the issuer, bundle, key and order ids all match the pattern. |
| `Submission.SettingsOf` | widget.py:141-151 | The settings file holds exactly the six keys, and the environment is written as `Production` or `Sandbox`. |
| `Submission.Restore` | widget.py:82-94 | No settings file, or one that is not JSON, leaves the form unchanged. Restoring never unchecks sandbox. An empty settings object restores the default key path and empty fields. `SettingsRoundTrip` gives the round trip. |
| `Submission.SettingsRoundTrip` | widget.py:82-94 | Restoring the settings written for a submitted form gives back every field. Sandbox comes back; production leaves the environment button as it was. |
| `Submission.Widget.constructor` | widget.py:68-77 | The form is the laid-out form after `on_start`. The result text is as laid out, no dialog is shown, and the worker is new and unset. |
| `Submission.Widget.OnStart` | widget.py:79-94 | A missing or non-JSON settings file leaves the form unchanged. Otherwise each field takes its stored value or its default, and sandbox is checked when stored. |
| `Submission.Widget.OnSubmit` | widget.py:104-161 | The result text becomes "Searching...". The first failing check shows its message and nothing is written or started. Otherwise the settings are written, the worker gets the form's values and key bytes, and it is started once. |
| `Submission.Widget.Callback` | widget.py:163-164 | The result text becomes the emitted string. |
| `Submission.Widget.OnClear` | widget.py:166-167 | The result text becomes empty. |
| `Submission.Widget.DeliverAll` | widget.py:56-64 | Each emitted string replaces the result text in turn, so the last one emitted is what stays shown. |

## Left out

- The Qt user interface is not modelled. This covers `Ui_Widget`, the message boxes (only their text is kept, as `dialog`), and `on_select` with its file dialog. They are widget wiring with no logic beyond copying the chosen path.
- Background execution on a `QThread` and the `Signal` plumbing are not modelled. `Run` returns the emitted strings in order instead. An unguarded second submit while a lookup runs is a concurrency race and is not modelled.
- `AppStoreServerAPIClient`, the network lookup and JWT signing are a foreign library doing I/O. They are the `build` parameter (whether the client's constructor returns) and the `lookup` parameter. The text of `str(e)` for an APIException is an input.
- A response with status 0 and no transaction list (a `TypeError` in the loop) is not modelled. A missing status compares unequal to 0 and behaves like any non-zero status.
- `json.loads` and `json.dumps` are the `render` parameter. Their encoding detection, float and Unicode details are outside the model.
- File I/O is modelled only as data. Key files are a map from existing paths to their bytes. A path that exists but cannot be read is not modelled.
- `Submission.Widget.OnSubmit`: it returns the settings rather than writing them. A settings file is modelled by what `json.loads` returns, as a map of strings; values that are not strings, and JSON that is not an object, are not modelled.
- The debug `print` of the decoded bytes is not modelled.
- No radio button checked at submit time (an unbound `environment`) is not modelled. Whether that state can occur is decided by the Qt layout, which is not part of this model.
- Signature verification of the JWS is not modelled, because the code does none.
- `TokenDecode.DecodeFailsIff`: it characterises only payload segments over the two base 64 alphabets. The reason is that `=` and other ASCII characters inside a segment matter only to the lenient decode mode, and the payload segment of a JWS in compact serialisation never holds them. The decoder model itself skips such characters as non-strict mode does, and `RawTokenFallback` covers every segment for the fallback itself.
- The decoder follows CPython 3.11 and later. Older releases decide where `=` ends the input by looking ahead to the next alphabet character, and that variant is not modelled.
