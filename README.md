# Key-value store with per-entry time-to-live

A Dafny model of the core of a small key-value service. Each entry has a
time-to-live (TTL) counter. The model covers two Java classes:

- `KeyValueModel` is the entry. It holds a key, a value that can be cleared
  to null, and a signed TTL that defaults to 600000. It has mutators for the
  value and the TTL, a count-down-and-test, and a JSON `toString`.
- `KeyValueServiceImpl` is the store service over the repository table. It
  offers `getAll`, `getValue`, two `setValue` overloads, `remove` (which
  keeps the key and clears its value), the sweeper `checkTtls(n)`, and
  `dump`/`load`. These two write the whole table to the file "dump.txt" as
  one JSON record per line and read it back.

Files, one module each:

- `wrappers.dfy`: `Option`, standing in for Java's null.
- `java_text.dfy`: `String.isBlank`, using the whitespace set of
  `Character.isWhitespace`, and the line splitting of `BufferedReader.readLine`.
- `json.dfy`: how Jackson writes a string field and a `long` field, and a
  reader for JSON strings and integers. Like Jackson's reader, it takes more
  than the writer produces: every JSON string escape except a surrogate
  half, hex digits of either case, and `-0`.
- `model.dfy`: the record `Record(key, value, ttl)`, its JSON line
  (`Encode`/`Decode`), and the class `Entry` for `KeyValueModel`.
- `service_spec.dfy`: the table as `map<string, Record>`, each store
  operation as a function from the old table to the new one, and the lemmas.
- `service.dfy`: the class `KeyValueStore` for `KeyValueServiceImpl`. It holds
  the fields `table` and `dumpFile` (the contents of "dump.txt", or `None`),
  plus a ghost log of the sweeper's console notices. Each method is proved to
  change this state exactly as the matching function in `service_spec.dfy` says.

How the repository is modelled:

- `getById` builds a fresh `Entry` from the stored record.
- `save` and `saveAndFlush` write the entry's record back under its key.
- `delete` removes the key.
- `findAll` returns the records in an order the model leaves open. `GetAll`
  picks keys with `:|`. `dump` and `checkTtls` are specified for every
  order in which `findAll` may list the table.

`remove` on an entry whose value is already null does not call
`saveAndFlush`. The entity is still managed by the enclosing `@Transactional`
context, so its TTL reset is written back at commit. The model therefore
resets the TTL on both paths.

`load` empties the table before it opens the file. A missing "dump.txt"
therefore leaves the table empty. A line that does not decode stops the load
and keeps the records saved before it. The `IOException` is checked, so the
transaction is not rolled back.

## Model

| member | source | states |
|---|---|---|
| Model.Entry.constructor | key-value/src/main/java/com/infotecsjava/keyvalue/model/KeyValueModel.java:33-37 | the entry has the given key and value and the default TTL 600000 |
| Model.Entry.WithTtl | key-value/src/main/java/com/infotecsjava/keyvalue/model/KeyValueModel.java:39-43 | the entry has exactly the given key, value and TTL |
| Model.Entry.SetValue | key-value/src/main/java/com/infotecsjava/keyvalue/model/KeyValueModel.java:49-51 | only the value changes; key and TTL are untouched |
| Model.Entry.SetTtl | key-value/src/main/java/com/infotecsjava/keyvalue/model/KeyValueModel.java:65-67 | only the TTL changes; key and value are untouched |
| Model.Entry.ResetTtl | key-value/src/main/java/com/infotecsjava/keyvalue/model/KeyValueModel.java:69-72 | the TTL becomes 600000; key and value are untouched |
| Model.Entry.CheckTtl | key-value/src/main/java/com/infotecsjava/keyvalue/model/KeyValueModel.java:78-81 | the new TTL is the old TTL minus n; the result is true iff the new TTL is at most 0; key and value are untouched |
| Model.Entry.ToString | key-value/src/main/java/com/infotecsjava/keyvalue/model/KeyValueModel.java:84-92 | the JSON text reads back as this entry's key, value and TTL when the TTL fits in a `long`, is refused otherwise, and contains no line break |
| Model.Decode | key-value/src/main/java/com/infotecsjava/keyvalue/service/KeyValueServiceImpl.java:134 | `readValue` of one line into a `KeyValueModel`: it accepts only the fields `Key`, `Value`, `TTl` in that order with no white space, and every record it accepts has a TTL in the `long` range |
| Model.EncodeDecode | key-value/src/main/java/com/infotecsjava/keyvalue/model/KeyValueModel.java:16-27 | decoding a record's JSON line gives back all three fields `Key`, `Value` (null included) and `TTl` exactly when the TTL fits in a `long`; otherwise the line is refused; the default TTL is not part of the record |
| Model.DecodeLongBoundary | key-value/src/main/java/com/infotecsjava/keyvalue/service/KeyValueServiceImpl.java:134 | a TTL of the largest and of the smallest `long` is read back; one past either end is refused |
| Model.DecodeOtherForms | key-value/src/main/java/com/infotecsjava/keyvalue/service/KeyValueServiceImpl.java:134 | a line with `\/` in the key, `\u0041` in the value and TTL `-0` reads as key "/", value "A" and TTL 0, although the writer never produces these forms |
| Model.EncodeNoLineBreak | key-value/src/main/java/com/infotecsjava/keyvalue/model/KeyValueModel.java:84-92 | the JSON line of any record contains no '\r' and no '\n' |
| Json.QuoteRoundTrip | key-value/src/main/java/com/infotecsjava/keyvalue/model/KeyValueModel.java:16-20 | a string field as Jackson writes it (quoted and escaped) reads back as the same string, and the text after it is left as it was |
| Json.IntRoundTrip | key-value/src/main/java/com/infotecsjava/keyvalue/model/KeyValueModel.java:22-23 | every `long` TTL, negative ones included, reads back as the same number from its decimal text |
| JavaText.ReadLine | key-value/src/main/java/com/infotecsjava/keyvalue/service/KeyValueServiceImpl.java:130-135 | one `readLine`: the input is the line, then one terminator, then the unread rest. The terminator is "\n", "\r\n", or a lone "\r" not followed by "\n"; it is missing only at the end of the text. The line holds no terminator, and the rest is shorter than the input |
| JavaText.ReadLineTerminated | key-value/src/main/java/com/infotecsjava/keyvalue/service/KeyValueServiceImpl.java:130-135 | a line without line breaks followed by "\r\n" is read back exactly, and the rest is what followed |
| ServiceSpec.SetValueSemantics | key-value/src/main/java/com/infotecsjava/keyvalue/service/KeyValueServiceImpl.java:51-68 | the write is accepted iff key and value are both non-null, non-empty and not blank; a refused write leaves the table unchanged; an accepted one leaves the key with the new value and TTL 600000, whether the key was new or not, adds at most that key, and changes no other key |
| ServiceSpec.SetValueTtlSemantics | key-value/src/main/java/com/infotecsjava/keyvalue/service/KeyValueServiceImpl.java:71-88 | as for `setValue(key, value)`, and also refused when ttl <= 0; an accepted write sets the TTL to exactly ttl and does not add the remaining TTL |
| ServiceSpec.OverwriteResetsTtl | key-value/src/main/java/com/infotecsjava/keyvalue/service/KeyValueServiceImpl.java:61-67 | writing "value" under "key" with TTL 5 and then "value1" with no TTL gives "value1" with TTL 600000, so the old remaining TTL is not kept |
| ServiceSpec.RemoveSemantics | key-value/src/main/java/com/infotecsjava/keyvalue/service/KeyValueServiceImpl.java:92-107 | an absent key gives null and no change; a present key stays in the table with value null and TTL 600000, the old value (null if already cleared) is returned, and a second remove gives null; no other key changes |
| ServiceSpec.WritesKeepLive | key-value/src/main/java/com/infotecsjava/keyvalue/service/KeyValueServiceImpl.java:51-107 | both setValue forms and remove keep each record under its own key with a TTL above 0 |
| ServiceSpec.SweepSemantics | key-value/src/main/java/com/infotecsjava/keyvalue/service/KeyValueServiceImpl.java:143-155 | after checkTtls(n) an entry is present iff its TTL minus n is above 0, and then it has that TTL with the same key and value; no key is added, and no entry that has run out remains |
| ServiceSpec.SweepTimesEntry | key-value/src/main/java/com/infotecsjava/keyvalue/service/KeyValueServiceImpl.java:143-155 | after j sweeps of step n > 0, an entry with TTL T > 0 is present iff T - j*n > 0, and then its TTL is T - j*n |
| ServiceSpec.EvictedAfterCeil | key-value/src/main/java/com/infotecsjava/keyvalue/service/KeyValueServiceImpl.java:143-155 | with step n > 0, an entry with TTL T > 0 survives ceil(T/n) - 1 sweeps and is gone after ceil(T/n) |
| ServiceSpec.SweepListedIsSweep | key-value/src/main/java/com/infotecsjava/keyvalue/service/KeyValueServiceImpl.java:143-155 | the checkTtls loop ends with the same table whatever order findAll lists the entries in |
| ServiceSpec.NoticeExactlyOnce | key-value/src/main/java/com/infotecsjava/keyvalue/service/KeyValueServiceImpl.java:146-149 | one checkTtls pass prints the expiry notice of a key exactly once if its entry runs out in that pass, and never otherwise |
| ServiceSpec.NoticeOnceOverSweeps | key-value/src/main/java/com/infotecsjava/keyvalue/service/KeyValueServiceImpl.java:143-155 | over j sweeps of step n > 0, an entry with TTL T > 0 gets its expiry notice once when j >= ceil(T/n), and not at all before then |
| ServiceSpec.ListingEmpty | key-value/src/main/java/com/infotecsjava/keyvalue/service/KeyValueServiceImpl.java:37-39 | getAll gives an empty list exactly when the store is empty |
| ServiceSpec.DumpEmptyTable | key-value/src/main/java/com/infotecsjava/keyvalue/service/KeyValueServiceImpl.java:110-124 | the dump text is "" exactly when the store is empty |
| ServiceSpec.DumpLoadRoundTrip | key-value/src/main/java/com/infotecsjava/keyvalue/service/KeyValueServiceImpl.java:110-140 | loading the text dumped for the table, in any listing order, restores the same table, TTLs included, and succeeds, when every TTL fits in a `long`; otherwise the load fails |
| ServiceSpec.ReplayWellFormed | key-value/src/main/java/com/infotecsjava/keyvalue/service/KeyValueServiceImpl.java:127-140 | whatever the file holds, load keeps every record under its own key and adds no TTL outside the `long` range |
| ServiceSpec.OperationsKeepLongTtls | key-value/src/main/java/com/infotecsjava/keyvalue/service/KeyValueServiceImpl.java:51-155 | both setValue forms (given a `long` TTL), remove, and checkTtls with n >= 0 keep every TTL in the `long` range |
| Service.KeyValueStore.GetAll | key-value/src/main/java/com/infotecsjava/keyvalue/service/KeyValueServiceImpl.java:37-39 | returns every entry of the table exactly once |
| Service.KeyValueStore.GetValue | key-value/src/main/java/com/infotecsjava/keyvalue/service/KeyValueServiceImpl.java:42-48 | null for an absent key, otherwise the stored value, which may be null after a remove; the store is not changed |
| Service.KeyValueStore.SetValue | key-value/src/main/java/com/infotecsjava/keyvalue/service/KeyValueServiceImpl.java:51-68 | the new table and the result are those of ServiceSpec.AfterSet |
| Service.KeyValueStore.SetValueWithTtl | key-value/src/main/java/com/infotecsjava/keyvalue/service/KeyValueServiceImpl.java:71-88 | the new table and the result are those of ServiceSpec.AfterSetTtl |
| Service.KeyValueStore.Remove | key-value/src/main/java/com/infotecsjava/keyvalue/service/KeyValueServiceImpl.java:92-107 | the new table and the returned value are those of ServiceSpec.AfterRemove |
| Service.KeyValueStore.Dump | key-value/src/main/java/com/infotecsjava/keyvalue/service/KeyValueServiceImpl.java:110-124 | the file and the returned text are both the concatenation of each entry's JSON line plus "\r\n", over a listing of the table; the text is "" iff the store is empty |
| Service.KeyValueStore.Load | key-value/src/main/java/com/infotecsjava/keyvalue/service/KeyValueServiceImpl.java:127-140 | a missing file leaves the table empty; otherwise the table and the outcome are those of replaying the file's lines from an empty table, stopping at the first line that does not decode |
| Service.KeyValueStore.CheckOne | key-value/src/main/java/com/infotecsjava/keyvalue/service/KeyValueServiceImpl.java:146-153 | one loop turn: the listed entry is deleted with a notice if its TTL minus n is at most 0, otherwise saved with the reduced TTL |
| Service.KeyValueStore.CheckTtls | key-value/src/main/java/com/infotecsjava/keyvalue/service/KeyValueServiceImpl.java:143-155 | the new table is ServiceSpec.AfterSweep of the old one, and the notices added are those of the expiring entries in listing order |
| Service.DumpThenLoad | key-value/src/main/java/com/infotecsjava/keyvalue/service/KeyValueServiceImpl.java:110-140 | a dump followed by a load succeeds exactly when every TTL fits in a `long`, and then leaves the table as it was |

## Left out

- HTTP routing and status codes, in `KeyValueController.java`, are not part of this model. The one fact kept from it is that the scheduler calls `checkTtls(1)` every millisecond. Timing is left out, and n stays a parameter.
- Concurrency, `@Scheduled` timing and `@Transactional` isolation are left out. Every operation is one sequential step on the state.
- The Spring Data repository is replaced by a map field. Hibernate proxies and flush timing are not modelled.
- Real file I/O is modelled as one `Option<string>` field. Not modelled: file handles, buffering, closing, and I/O errors other than a missing "dump.txt".
- Model.Entry.ToString: it cannot fail. Jackson writing two strings and a `long` into an in-memory writer has no failure path, so the `null` branch of `toString` and the matching early `return null` in `dump` are not modelled.
- Model.Decode, Service.KeyValueStore.Load: Decode accepts the fields `Key`, `Value`, `TTl` only in that order, with no white space and nothing after the closing `}`. Each string may use any JSON escape form, and the TTL must be a decimal integer in the `long` range (`-0` included). Jackson's reader also accepts forms that Decode refuses: white space; other field orders; text after the closing `}`; a number or a boolean as `Value` (read as its text); a missing `Value` (read as null); `"TTl":null` or a missing `TTl` (read as 0); a TTL in quotes or written as a float; and `"Key":null` or a missing `Key`. Like Decode, it rejects unknown fields. On most of these lines the model's load stops with `BadRecord` and keeps the records saved before the line, while Java's load reads the line and goes on. A null or missing key is the exception. Java's load then passes an entity with a null `@Id` to `save`, which throws an unchecked exception. The transaction rolls back to the table from before the load, `deleteAll` included, and the exception is not an `IOException`. The model still reports `BadRecord` with the partial table.
- Json.ReadEscape: a `\uXXXX` escape that is half of a surrogate pair is refused. Java strings can hold such halves; Dafny characters cannot. Jackson never writes this escape for the entries here.
- Model.Entry.CheckTtl: TTLs are unbounded integers. Java's `long` wrap-around in `ttl -= n` is not modelled. In Java, an entry whose TTL is near `Long.MIN_VALUE` (loaded as `"TTl":-9223372036854775808`) wraps to a large positive TTL under `checkTtls(1)` and is kept; the model evicts it. A TTL outside the `long` range can arise in the model, from `checkTtls` with a negative n or from a `setValue` TTL beyond a `long`. Java cannot hold such a TTL, and the model's `load` refuses it as Java's would. ServiceSpec.OperationsKeepLongTtls states when the range is kept.
- Service.KeyValueStore.SetValueWithTtl: the `ttl` parameter is an unbounded integer, not a `long`.
- Service.KeyValueStore.Dump, Service.KeyValueStore.Load, ServiceSpec.DumpLoadRoundTrip, Service.DumpThenLoad: the file is modelled as a sequence of characters. `FileWriter` and `FileReader` use the platform's default charset, and the writer puts `?` for any character that charset cannot encode. So the round trip holds only when the default charset encodes every character of the table, as UTF-8 does. Under US-ASCII or windows-1251, a key such as "日本" comes back as "??". The charset is not modelled.
- `KeyValueModel`'s no-argument constructor, `setKey` and the getters are not modelled separately. Jackson and JPA use them to fill an entity. Getters are plain field reads in the model.
- `getValue` and `remove` with a null key throw inside the repository (`existsById(null)`). Their key parameter is therefore a non-null string in the model.
- The console messages of `checkTtls` are a ghost log of (key, value) notices, not printed text.
