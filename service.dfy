/**
 * `KeyValueServiceImpl`: the store service over its repository table and the
 * snapshot file "dump.txt". Each method changes the state exactly as the
 * matching function of ServiceSpec says; the properties are proved there.
 */
module Service {
  import opened Wrappers
  import opened JavaText
  import opened Model
  import opened ServiceSpec

  /** How `load` ends: normally, or with the `IOException` it throws when
    * "dump.txt" is missing or a line is not a JSON record. */
  datatype LoadStatus = Loaded | NoDumpFile | BadRecord

  class KeyValueStore {
    /** The repository's table. */
    var table: Table
    /** The contents of "dump.txt"; None while there is no such file. */
    var dumpFile: Option<string>
    /** The expiry notices printed to the console so far. */
    ghost var notices: seq<Notice>

    ghost predicate Valid()
      reads this
    {
      WellFormed(table)
    }

    /** An empty store beside whatever "dump.txt" currently holds. */
    constructor (dumpFile: Option<string>)
      ensures Valid() && table == map[] && this.dumpFile == dumpFile && notices == []
    {
      table := map[];
      this.dumpFile := dumpFile;
      notices := [];
    }

    /** `repository.getById`: the entity object for a stored key. */
    method Fetch(key: string) returns (e: Entry)
      requires key in table
      ensures fresh(e) && e.ToRecord() == table[key]
    {
      var r := table[key];
      e := new Entry.WithTtl(r.key, r.value, r.ttl);
    }

    /** `repository.save` / `saveAndFlush`: store the entity's state under
      * its key, replacing what was there. */
    method Save(e: Entry)
      modifies this`table
      ensures table == old(table)[e.key := e.ToRecord()]
    {
      table := table[e.key := e.ToRecord()];
    }

    /** `repository.delete`. */
    method Delete(e: Entry)
      modifies this`table
      ensures table == old(table) - {e.key}
    {
      table := table - {e.key};
    }

    /** `getAll` (`findAll`): every entry exactly once, in no particular
      * order. */
    method GetAll() returns (all: seq<Record>)
      requires Valid()
      ensures IsListing(all, table)
    {
      all := [];
      var todo := table.Keys;
      while todo != {}
        invariant todo <= table.Keys
        invariant FromTable(all, table)
        invariant KeysOf(all) == table.Keys - todo
        decreases todo
      {
        var k :| k in todo;
        KeysOfSnoc(all, table[k]);
        all := all + [table[k]];
        todo := todo - {k};
      }
    }

    /** `getValue`: null for an absent key, else the stored value (null
      * once removed). */
    method GetValue(key: string) returns (v: Option<string>)
      ensures key !in table ==> v == None
      ensures key in table ==> v == table[key].value
    {
      if key in table {
        var e := Fetch(key);
        v := e.value;
      } else {
        v := None;
      }
    }

    /** `setValue(key, value)`. */
    method SetValue(key: Option<string>, value: Option<string>) returns (ok: bool)
      requires Valid()
      modifies this`table
      ensures Valid()
      ensures (table, ok) == AfterSet(old(table), key, value)
    {
      if key.None? || |key.value| == 0 || IsBlank(key.value) ||
         value.None? || |value.value| == 0 || IsBlank(value.value) {
        return false;
      }
      var k := key.value;
      if k !in table {
        var e := new Entry(k, value);
        Save(e);
      } else {
        var e := Fetch(k);
        e.SetValue(value);
        e.ResetTtl();
        Save(e);
      }
      ok := true;
    }

    /** `setValue(key, value, ttl)`. */
    method SetValueWithTtl(key: Option<string>, value: Option<string>, ttl: int) returns (ok: bool)
      requires Valid()
      modifies this`table
      ensures Valid()
      ensures (table, ok) == AfterSetTtl(old(table), key, value, ttl)
    {
      if ttl <= 0 || key.None? || |key.value| == 0 || IsBlank(key.value) ||
         value.None? || |value.value| == 0 || IsBlank(value.value) {
        return false;
      }
      var k := key.value;
      if k !in table {
        var e := new Entry.WithTtl(k, value, ttl);
        Save(e);
      } else {
        var e := Fetch(k);
        e.SetValue(value);
        e.SetTtl(ttl);
        Save(e);
      }
      ok := true;
    }

    /** `remove`. The entity is managed by the surrounding transaction, so
      * its TTL reset is written back on the null-value path too. */
    method Remove(key: string) returns (v: Option<string>)
      requires Valid()
      modifies this`table
      ensures Valid()
      ensures (table, v) == AfterRemove(old(table), key)
    {
      if key in table {
        var e := Fetch(key);
        var value := e.value;
        e.ResetTtl();
        if value.Some? {
          e.SetValue(None);
          Save(e);
          v := value;
        } else {
          Save(e);
          v := None;
        }
      } else {
        v := None;
      }
    }

    /** `keyValue.toString()` on a listed entity. */
    static method RecordLine(r: Record) returns (line: string)
      ensures line == Encode(r)
    {
      var e := new Entry.WithTtl(r.key, r.value, r.ttl);
      line := e.ToString();
    }

    /** `dump`: writes one JSON line per entry, each followed by "\r\n",
      * to "dump.txt" (replacing it) and returns the same text. */
    method Dump() returns (text: string)
      requires Valid()
      modifies this`dumpFile
      ensures dumpFile == Some(text)
      ensures exists all :: IsListing(all, table) && text == DumpText(all)
      ensures text == "" <==> table == map[]
    {
      dumpFile := Some("");
      var all := GetAll();
      text := "";
      var i := 0;
      while i < |all|
        invariant 0 <= i <= |all|
        invariant text == DumpText(all[..i])
        invariant dumpFile == Some(text)
      {
        var line := RecordLine(all[i]);
        DumpTextStep(all, i);
        dumpFile := Some(dumpFile.value + line + "\r\n");
        text := text + line + "\r\n";
        i := i + 1;
      }
      assert all[..i] == all;
      DumpEmptyTable(all, table);
    }

    /** `load`: empties the table, then saves the record of each line of
      * "dump.txt" in turn, TTL as stored. It stops at a missing file
      * (leaving the table empty) or at the first line that is not a
      * record (keeping what was saved before it). */
    method Load() returns (status: LoadStatus)
      requires Valid()
      modifies this`table
      ensures Valid()
      ensures dumpFile.None? ==> status == NoDumpFile && table == map[]
      ensures dumpFile.Some? ==> status != NoDumpFile && (table, status == Loaded) == Replay(map[], dumpFile.value)
    {
      if |table| != 0 {
        table := map[];
      }
      if dumpFile.None? {
        return NoDumpFile;
      }
      var text := dumpFile.value;
      var rest := text;
      while rest != []
        invariant Replay(table, rest) == Replay(map[], text)
        invariant WellFormed(table)
        decreases |rest|
      {
        var (line, after) := ReadLine(rest);
        var decoded := Decode(line);
        if decoded.None? {
          return BadRecord;
        }
        var r := decoded.value;
        var e := new Entry.WithTtl(r.key, r.value, r.ttl);
        Save(e);
        rest := after;
      }
      status := Loaded;
    }

    /** The body of the `checkTtls` loop for the listed entity `r`. */
    method CheckOne(r: Record, n: int)
      modifies this`table, this`notices
      ensures table == SweepStep(old(table), r, n)
      ensures notices == old(notices) + (if r.ttl - n <= 0 then [Expired(r.key, r.value)] else [])
    {
      var e := new Entry.WithTtl(r.key, r.value, r.ttl);
      var expired := e.CheckTtl(n);
      if expired {
        notices := notices + [Expired(e.key, e.value)];
        Delete(e);
      } else {
        Save(e);
      }
    }

    /** `checkTtls(n)`: counts every entry's TTL down by `n`; an entry that
      * runs out is deleted and its expiry notice printed, any other is
      * saved with its new TTL. */
    method CheckTtls(n: int)
      requires Valid()
      modifies this`table, this`notices
      ensures Valid()
      ensures table == AfterSweep(old(table), n)
      ensures exists all :: IsListing(all, old(table)) && notices == old(notices) + ExpiryNotices(all, n)
    {
      var all := GetAll();
      ghost var t0 := table;
      ghost var log0 := notices;
      var i := 0;
      while i < |all|
        invariant 0 <= i <= |all|
        invariant table == SweepListed(t0, all[..i], n)
        invariant notices == log0 + ExpiryNotices(all[..i], n)
      {
        SweepStepUnfold(t0, all, i, n);
        CheckOne(all[i], n);
        i := i + 1;
      }
      assert all[..i] == all;
      SweepListedIsSweep(t0, all, n);
      assert WellFormed(AfterSweep(t0, n));
    }
  }

  /** A dump followed by a load gives back the same table, TTLs included,
    * and the load succeeds, exactly when every TTL fits in a `long`. */
  method DumpThenLoad(s: KeyValueStore) returns (status: LoadStatus)
    requires s.Valid()
    modifies s
    ensures s.Valid()
    ensures status == Loaded <==> LongTtls(old(s.table))
    ensures status == Loaded ==> s.table == old(s.table)
  {
    var text := s.Dump();
    ghost var all :| IsListing(all, s.table) && text == DumpText(all);
    DumpLoadRoundTrip(s.table, all);
    status := s.Load();
  }
}
