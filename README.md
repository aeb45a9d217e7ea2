# Secret paisano: a Dafny model of the drawing

The program runs a "secret paisano" (secret gift-giver) drawing. It loads the
participants ("paisanos") from a spreadsheet and shuffles them in place. It then
zips the shuffled list against itself rotated right by one place, so participant
`i` gives a present to participant `i - 1` and the first gives to the last. Each
gifter is then sent one message naming their recipient. In test mode every
message goes to the sender's own address instead.

This project models that core in Dafny:

- `wrappers.dfy`: `Option` and `Result`.
- `paisanos.dfy`: the participant record. It holds the fixed set of seven
  shirt-size tokens ("?" means unknown) and the colour field, which is split
  on commas without trimming, with the join that undoes the split.
- `shuffle.dfy`: `random.shuffle` as the Fisher-Yates loop that CPython runs.
  It works in place on an `array`. The random draws are a parameter, so the
  model covers every run of the shuffle and says nothing about probabilities.
- `drawing.dfy`: the rotation, Python's `zip` and slices, and the couples. It
  also holds the lemmas that every participant gives once and receives once,
  that no couple joins an index to itself once there are two participants,
  and that the couples form a single cycle.
- `secret_paisano.dfy`: the `SecretPaisano` object. Its constructor shuffles
  the participants and draws the couples. `GetEmail` is the test-mode
  address rule. The send loop hands one message per couple to the mail
  transport, which is modelled as an outbox sequence.

Three behaviours of the code are worth stating plainly:

- With one participant the code pairs that participant with themselves and
  raises nothing (`Drawing.SmallDrawings`).
- The colour field is split on "," and the pieces are not trimmed.
- The code does not check that participants are distinct. "Nobody gives to
  themselves" is stated by index, and as a statement about participants only
  when they are distinct (`Drawing.NoSelfCouple`).

## Model

| member | source | states |
|---|---|---|
| `Paisanos.SizeToken` | main.py:40 | every shirt size is written with one of the seven accepted tokens |
| `Paisanos.ParseShirtSize` | main.py:40 | a token is accepted exactly when it is one of "XS", "S", "M", "L", "XL", "XXL", "?" |
| `Paisanos.ParseShirtSizeInverts` | main.py:40 | parsing a token yields a size exactly when that size is written with that token (both directions) |
| `Paisanos.SplitColors` | main.py:45-48 | `v.split(",")` always has at least one piece, and no piece contains a comma |
| `Paisanos.SplitColorsCount` | main.py:48 | the split has exactly one more piece than the field has commas |
| `Paisanos.JoinSplitColors` | main.py:48 | joining the pieces with "," gives back the original field (nothing is trimmed or lost) |
| `Paisanos.SplitJoinColors` | main.py:48 | splitting the join of comma-free pieces gives back the same pieces |
| `Paisanos.SplitIsUnique` | main.py:48 | the split is the only non-empty list of comma-free pieces whose join is the field |
| `Paisanos.ValidatePaisano` | main.py:37-48 | a row is accepted exactly when its size token is in the fixed set, otherwise the error names the token; an accepted row keeps name, email and optional fields, has a size written with the raw token, and a non-empty list of comma-free colour pieces whose join is the raw field (by `SplitIsUnique`, exactly the comma split) |
| `Shuffle.FisherYates` | main.py:90 | the Fisher-Yates exchanges keep the length and the multiset of the list (a permutation) |
| `Shuffle.IdentityDrawsKeepOrder` | main.py:90 | draws that always pick the current index leave the list unchanged |
| `Shuffle.ShuffleInPlace` | main.py:90 | the in-place loop leaves the array equal to the Fisher-Yates result for the draws, and a permutation of what it held |
| `Drawing.PrevIndex` | main.py:91 | the index each couple's recipient comes from is `(i - 1) mod n`: below n and differing from i - 1 by 0 or n |
| `Drawing.RotateRight` | main.py:91 | `xs[-1:] + xs[:-1]` has the same length, and element i is element `(i - 1) mod n` of the input |
| `Drawing.RotateRightPermutes` | main.py:91 | the rotated list is a permutation of the list |
| `Drawing.Zip` | main.py:91 | `zip` is as long as the shorter list and pairs the elements at each index |
| `Drawing.MakeCouples` | main.py:91-92 | one couple per participant; couple i has gifter `p[i]` and recipient `p[(i - 1) mod n]` |
| `Drawing.EveryoneGivesAndReceivesOnce` | main.py:90-92 | the gifters are the shuffled list in order, and the recipients are its rotation, a permutation of it |
| `Drawing.NoSelfCouple` | main.py:91 | with two or more participants no couple joins an index to itself; with distinct participants, no gifter is their own recipient |
| `Drawing.ReceiverGivesNext` | main.py:91 | the recipient of couple i is the gifter of couple `(i - 1) mod n`, so "gives to" is a walk over the couples |
| `Drawing.FollowStepsBack` | main.py:91 | following "gives to" k times (k up to n) from index i reaches index `(i - k) mod n` |
| `Drawing.SingleCycle` | main.py:91 | from any index, "gives to" returns after exactly n steps and not earlier, and reaches every index within n steps: one n-cycle |
| `Drawing.CouplesWalkStep` | main.py:91-92 | walking from couple i, the recipient of the couple reached after k steps is the gifter of the couple reached after k + 1 steps, and before n steps the walk is not back at couple i |
| `Drawing.CouplesFormOneCycle` | main.py:91-92 | the walk over the couples from couple i is back at couple i after n steps, and reaches any couple j in fewer than n steps |
| `Drawing.SmallDrawings` | main.py:91-92 | no participants give no couples; one participant gives one self-couple; two participants are swapped |
| `SecretPaisanoApp.GetEmail` | main.py:126-127 | test mode sends to the sender's address; otherwise the participant's own address is used |
| `SecretPaisanoApp.TestModeIgnoresParticipant` | main.py:127 | in test mode the address is the same for every participant |
| `SecretPaisanoApp.BuildEnvelope` | main.py:116-121 | a message goes from the sender, to the gifter's address as chosen by the test-mode rule, with the fixed subject |
| `SecretPaisanoApp.DrawingMessages` | main.py:100-127 | a run sends one message per participant; without test mode the addresses are the participants' emails in shuffled order, in test mode all go to the sender |
| `SecretPaisanoApp.MessageNamesRecipient` | main.py:102-108 | message i is about couple i: its gifter is participant i and the recipient it names is participant `(i - 1) mod n` |
| `SecretPaisanoApp.SecretPaisano.constructor` | main.py:63-66 | the participants are loaded, shuffled in place into a permutation of the loaded list, and the couples are the drawing over the shuffled order |
| `SecretPaisanoApp.GetCouples` | main.py:89-92 | the object's participant array becomes the shuffle of its old contents, a permutation of them, and the result is the drawing over the new order |
| `SecretPaisanoApp.SecretPaisano.Send` | main.py:100-104 | on a drawn object, the outbox grows by the messages for the drawing over the current participant order, one per couple, and the couples stay the drawing |
| `SecretPaisanoApp.SecretPaisano.SendAll` | main.py:102-103 | the outbox grows by one message per given couple, in order |
| `SecretPaisanoApp.SecretPaisano.SendEmail` | main.py:106-114 | the outbox grows by exactly the message built for the couple |

## Left out

- Reading the responses file, turning empty cells into `None` and dropping blank rows (main.py:77-81): this is file input and spreadsheet-library behaviour. The constructor takes the loaded participants as a parameter.
- Validation of the whole list by the schema library (main.py:83-87): only the per-row rules are modelled (`Paisanos.ValidatePaisano`). That covers the size set and the colour split. How the library gathers the errors of several rows is not modelled.
- A colour cell that is empty, so the validator receives `None` and `split` fails: a row's colour field is always text in the model.
- The randomness of `random.shuffle` (main.py:90): the draws of `randbelow` are a parameter with `draws[i] <= i`. No probability or uniformity is claimed.
- Writing the backup file with pickle (main.py:94-98): file output in a private format.
- Opening the mail session, STARTTLS, login and closing it (main.py:69-75, 101, 104), and the transport's send call (main.py:109-113): network I/O. Handing a message to the transport is modelled as appending it to `outbox`.
- Failures of the transport: `sendmail` can raise (main.py:109), which ends `send` early, so the remaining couples get no message and the session is not closed (main.py:103-104). The model's `Send` always hands over every message; the failure and the abort it causes are not modelled.
- Rendering the message body from the template and wrapping it in MIME parts (main.py:116-134): template and mail libraries. The couple a body is rendered from stands for the body.
- Loading the settings from the environment (main.py:20-34) and logging (main.py:16-17, 114): only `test` and `mailer_email` are modelled, as `Environment`.
- Strings are sequences of characters; Python's text encoding is not modelled.
