# websocket-api-go core, modelled in Dafny

This project models the three computational pieces of the websocket-api-go
service:

- **The WebSocket hub** (`websocket/hub.go`). The hub is a registry of
  connected clients kept as an ordered slice.
  - `onConnect` gives a client a fresh id and its remote address as ip, then
    appends it.
  - `onDisconnect` finds the first client with the same id, shifts the tail
    left over it and truncates.
  - `Broadcast` serialises a message once and pushes the same bytes onto the
  outbound queue of every client except the ignored one.
  - `Run` applies register and unregister events one at a time.

  The hub is modelled imperatively in `hub.dfy`: a `Hub` class with a
  `clients: seq<Client>` field, and `Client` objects whose `id`, `ip` and
  `outbound` fields are updated in place. `registry.dfy` holds the same
  registry seen as a value: a sequence of ids with `Remove`, `Step` and the
  fold `Run`. Each hub method's postcondition ties the new client list to
  those functions. The lemmas about the registry (order kept, no duplicate
  ids, size after a run) are proved once, on the functions.
- **The generic SQL repository** (`repository/repository.go`). An entity is
  the sequence of its struct fields, and each operation is modelled as the
  statement it hands to the database: the query text, the arguments, and the
  scan destinations.
  - The loops `getPlaceholders`, `getUpdateFields`, `getEntityValues` and
    `getPointerValues` are methods proved against specification functions.
  - The query templates and `Save` are functions.
  - `text.dfy` holds `strings.Join` and a character count used to count `?`
    placeholders.
- **The unary primality test** (`is_prime.ts`). `isPrime(n)` writes `n` as
  `n` ones and reports a prime when `^1?$|^(11+?)\1+$` does not match.
  `prime.dfy` models the pattern by what it accepts, with the lazy group's
  backtracking written as a search over group lengths, shortest first. It
  proves that the test decides primality.

Four behaviours of the code are worth knowing when reading the model:

- **Removing an unregistered client panics.** When no registered client has
  the id, `onDisconnect` leaves `i = -1`, and the slice `h.clients[i:]`
  panics. An empty hub is one such case. The model reports this: `OnDisconnect`
  returns `panicked`, and `Run` stops there. `Registry.SecondRemovalPanics`
  shows that removing the same client twice reaches this panic.
- **A serialisation error still sends.** The error of `json.Marshal` is
  discarded, and the nil payload it returns is pushed to every client except
  `ignore` (`Hub.Hub.Broadcast`).
- **The argument lists hold 2·NumField entries.** `getEntityValues` and
  `getPointerValues` make a slice of length `NumField` and then append to
  it, so they return `NumField` nils followed by the fields.
  `Repository.FieldListsDoubled` gives the consequence: for a struct with one
  field per column, the INSERT and the UPDATE receive more arguments than
  they have placeholders, and `FindById` scans into more destinations than
  the SELECT has columns.
- **The zero-key test depends on the dynamic type.** `Save` compares the
  key's interface value with the untyped constants `""` and `0`. Only a Go
  `string` `""` or a Go `int` `0` counts as "no key"; an `int64` zero, for
  example, leads to an UPDATE (`Repository.HasKey`).

## Model

| member | source | states |
|---|---|---|
| Hub.Hub.constructor | websocket/hub.go:26-33 | a new hub has an empty registry, which trivially has no duplicate ids |
| Hub.Hub.OnConnect | websocket/hub.go:57-64 | the client is appended at the end with every earlier entry unchanged; it gets the fresh id and its remote address as ip; its queue is untouched; ids stay distinct; on ids this is the registry's Register step |
| Hub.Hub.IndexOf | websocket/hub.go:70-76 | the search loop yields the index of the first client with the id, or -1 when there is none |
| Hub.Hub.CutOut | websocket/hub.go:77-79 | shift-left then truncate leaves exactly the old list without entry i |
| Hub.Hub.OnDisconnect | websocket/hub.go:66-80 | panics exactly when no registered client has the id, leaving the registry as it was; otherwise removes exactly the first entry with that id, keeps the order of the others and the ids distinct, and touches no client's fields; on ids this is the registry's Unregister step |
| Hub.Hub.Broadcast | websocket/hub.go:82-89 | every registered client other than `ignore` (by pointer) gets the one serialised payload appended to its queue exactly once, and that payload is the empty nil slice when json.Marshal fails; the ignored client gets nothing; ids, ips and the registry itself are unchanged |
| Hub.Hub.Dispatch | websocket/hub.go:48-53 | one turn of the select: a registration never panics, appends that client object to the unchanged list and gives it its new id, its remote address as ip and an untouched queue; a removal either panics and leaves the list as it was, or cuts out exactly the first client holding the removed client's id; on ids the new registry is the registry step of the event seen through the client's id at that moment, which is the id the run's history gives it; the ips and queues of the run's other registrants are unchanged |
| Hub.Hub.Run | websocket/hub.go:46-55 | processing events one at a time equals the registry fold over the same events seen as ids, where a removal of client c carries the id c holds at that point (its registration's id earlier in the run, else the id it came with); it stops at the first panicking removal: every event before that one leaves the registry defined; ids stay distinct; every client listed at the end was listed at the start or registered by a handled event; each handled registrant holds its new id and its remote address as ip, each unhandled one keeps its id and ip, and no registrant's queue changes; without a panic the size is the initial size plus registrations minus removals |
| Hub.TraceAgrees | websocket/hub.go:49-52 | entry k of the id-level view is event k seen as ids at that point: it keeps each event's kind and registration id, and gives each removal the id its client holds when it is handled |
| Hub.IdBeforeRegistered | websocket/hub.go:46-64 | with fresh registrations, a client registered at event k holds that registration's id after every later event |
| Hub.IdBeforeUnregistered | websocket/hub.go:46-64 | with fresh registrations, a client whose registration is event k still holds the id it came with before event k |
| Hub.RegistrantsAfter | websocket/hub.go:46-64 | after n events, each registrant among them holds its new id and its remote address as ip, every later registrant what it came with, and no registrant's queue has changed |
| Registry.FirstIndex | websocket/hub.go:70-76 | -1 exactly when the id is absent; otherwise an index holding the id with no earlier occurrence |
| Registry.Remove | websocket/hub.go:70-79 | no result (panic) exactly when the id is absent; otherwise one entry shorter |
| Registry.RemoveKeepsOrder | websocket/hub.go:77-79 | entries before the removed one stay in place; entries after it move down by one |
| Registry.RemoveDistinct | websocket/hub.go:70-79 | on a registry without duplicates, removal keeps it duplicate-free, and afterwards the members are exactly the old members except the id |
| Registry.SecondRemovalPanics | websocket/hub.go:70-77 | removing the same id a second time finds nothing and panics |
| Registry.Step | websocket/hub.go:49-52 | a registration appends the id; a removal panics exactly when the id is absent |
| Registry.RunSnoc | websocket/hub.go:46-55 | running one more event continues from where the shorter run ended |
| Registry.RunSize | websocket/hub.go:46-55 | after a run without a panic the size is the initial size plus registrations minus removals |
| Registry.RunDistinct | websocket/hub.go:46-63 | with ids never reused (fresh to the registry and to each other) a run never produces duplicate ids |
| Text.JoinSnoc | repository/repository.go:140 | strings.Join adds each further part after a separator at the end of what is already joined |
| Text.JoinSize | repository/repository.go:140 | a join is as long as its parts together plus one separator between each pair of neighbours |
| Text.JoinLength | repository/repository.go:140 | joining parts of equal length gives their total length plus one separator between each pair of neighbours |
| Text.CountCharJoin | repository/repository.go:140 | with a separator free of a character, the join holds exactly the parts' occurrences of it |
| Repository.FieldByName | repository/repository.go:54 | the value of the first field with the key's name; none (a reflection panic) exactly when no field has that name |
| Repository.GetPlaceholders | repository/repository.go:135-141 | the filled slice joined by ", " is Placeholders(n) |
| Repository.PlaceholdersAt | repository/repository.go:135-141 | "?, ?, …, ?": length 3n-2 for n > 0, with '?', ',' and ' ' at positions 0, 1 and 2 modulo 3 |
| Repository.PlaceholdersCount | repository/repository.go:135-141 | the placeholder list holds exactly n question marks, and is empty for n = 0 |
| Repository.GetUpdateFields | repository/repository.go:143-149 | the result is "<column> = ?" for each column, in column order, joined by ", " |
| Repository.UpdateFieldsCount | repository/repository.go:143-149 | with plain column names the SET list holds one question mark per column |
| Repository.GetEntityValues | repository/repository.go:126-133 | 2·NumField arguments: NumField nils, then the field values in declaration order |
| Repository.GetPointerValues | repository/repository.go:117-124 | 2·NumField destinations: NumField nils, then the address of each field in declaration order |
| Repository.FindByIdPlaceholders | repository/repository.go:38-43 | the SELECT holds exactly one placeholder, the key test |
| Repository.CreatePlaceholders | repository/repository.go:62-67 | the INSERT holds exactly one placeholder per column |
| Repository.UpdatePlaceholders | repository/repository.go:79-84 | the UPDATE holds one placeholder per column plus one for the key |
| Repository.DeletePlaceholders | repository/repository.go:96-100 | the DELETE holds exactly one placeholder, the key test |
| Repository.KeyStatementsBalanced | repository/repository.go:37-106 | FindById and Delete pass exactly as many arguments as their query has placeholders: one |
| Repository.FieldListsDoubled | repository/repository.go:61-133 | with one field per column, the INSERT and UPDATE get more arguments than placeholders, and FindById scans into 2·NumField destinations |
| Repository.Save | repository/repository.go:52-59 | no statement (a reflection panic) exactly when the struct has no key field; otherwise a single Exec |
| Repository.SaveDispatch | repository/repository.go:52-86 | the UPDATE runs exactly when the key is not nil, "" or 0, with the key appended after the values; the INSERT runs exactly otherwise, with the values alone |
| Prime.Ones | is_prime.ts:2 | "1".repeat(n) is n characters, all '1' |
| Prime.Lazy | is_prime.ts:2 | the lazy group's backtracking finds the shortest group length that lets the rest match, and finds none only when no length does |
| Prime.Greedy | is_prime.ts:2 | a greedy group finds the longest such length, and finds none only when no length does |
| Prime.CopiesOnes | is_prime.ts:2 | n ones are back-to-back copies of k ones exactly when n is a positive multiple of k |
| Prime.GroupAtOnes | is_prime.ts:2 | on n ones the group can be k long exactly when k ≥ 2, n ≥ 2k and k divides n |
| Prime.ShortMatch | is_prime.ts:2 | the alternative ^1?$ matches n ones exactly when n ≤ 1 |
| Prime.CompositeMatch | is_prime.ts:2 | the alternative ^(11+?)\1+$ matches n ones exactly when n = k·m with k, m ≥ 2 |
| Prime.IsPrimeCorrect | is_prime.ts:1-3 | isPrime(n) holds exactly when n ≥ 2 and no d with 2 ≤ d < n divides n |
| Prime.SmallCases | is_prime.ts:1-3 | 0 and 1 are not prime; 2 and 3 are |
| Prime.LazyFindsSmallestFactor | is_prime.ts:2 | when the lazy group matches, its length is the smallest factor of n that is at least 2 |
| Prime.LazinessIrrelevant | is_prime.ts:2 | a lazy and a greedy group match the same strings, so laziness only changes which group is found |

## Left out

- Concurrency. The goroutine running `Run`, the `register` and `unregister`
  channels and the mutex are not modelled (websocket/hub.go:21-31, 46-60).
  `Run` is modelled as a sequential pass over a finite event sequence, and
  the unlocked read of the registry in `Broadcast` (a data race) is outside
  a sequential model.
- Go's `(*Hub).Handle` is not modelled. It does the WebSocket upgrade and
  starts `client.Write` (websocket/hub.go:35-44); both are network I/O.
- Hub.Hub.OnConnect: a failed upgrade is not modelled. `Handle` does not
  return after the upgrade error, so a client with a nil socket is
  registered. `onConnect` then dereferences `c.socket` (websocket/hub.go:58,
  62), and so does `onDisconnect` (websocket/hub.go:67); each panics in the
  hub's goroutine. In the model every client has a remote address, and
  `OnConnect` never panics.
- `uuid.New` becomes the parameter `newId` of `OnConnect`. Its freshness is a
  precondition: the id is not in use, and within a run no two registrations
  share an id or a client object.
- `json.Marshal` becomes an arbitrary function `marshal` from the message
  to bytes or an error. JSON encoding itself is not modelled.
- The `Client` type, `NewClient`, `Write` and the capacity of the outbound
  channel are in a file that is not part of this model. The outbound channel
  is modelled as an unbounded sequence that `Broadcast` appends to, and a
  send never blocks.
- Hub.Hub.OnDisconnect: setting the vacated last slot to nil
  (websocket/hub.go:78) is not modelled. It only lets the garbage collector
  reclaim the client.
- The logging calls in `onConnect` and `onDisconnect`.
- Database and reflection calls: `db.QueryRow`, `db.Exec`, `row.Scan` and
  their error returns, including the error path of `scanRow`.
  - An operation is modelled by the statement it issues, not by its result.
  - `reflect.ValueOf(entity).Elem()` on a non-pointer argument (a panic) is
    not modelled; the entity is always a struct.
  - `Field(i).Addr()` is modelled as the field's index.
- Repository.FieldByName: entities are flat structs whose fields are all
  exported. Two reflection behaviours are left out:
  - `Interface()` panics on a value read through an unexported field. That
    affects the key lookup (repository/repository.go:54), `getEntityValues`
    (repository/repository.go:130) and `getPointerValues`
    (repository/repository.go:121), and through them `Save`, `create`,
    `update` and `FindById`.
  - `FieldByName` also finds the promoted fields of embedded structs.
  The "no field has that name" statements of `Repository.FieldByName` and
  `Repository.Save` are about such flat structs.
- Repository.Update: it requires the key field to be present. `Save`, its
  only caller, has already looked the key up, so the second lookup cannot
  fail.
- The `Repository` interface and `NewGenericRepository` (a struct literal)
  add no behaviour.
- Prime.IsPrime: only natural-number inputs are modelled. `"1".repeat` throws
  on negative numbers and truncates fractions, and JavaScript numbers are
  floats.
- Prime.IsPrimeCorrect: the model's strings are unbounded. `"1".repeat(num)`
  throws a RangeError once `num` exceeds the engine's maximum string length
  (about 2^29 characters in V8), so the source gives no answer there. The
  equivalence is proved for every natural number.
- The regular-expression engine is modelled by what the pattern accepts,
  with the order in which the lazy group tries lengths. Its other
  backtracking steps are not modelled.
- `server/server.go`, `cache/`, `server/logger.go`, `middleware/logging.go`,
  `main.go` and `structs/models.go` are not part of this model. They are I/O
  glue and plain data types.
