/** The part of the disk that mailboxes use.  Every operation records the states the disk passes through, so that what
    a crash can leave behind is one of the recorded states. */
module FileSystem {
  import opened Wrappers
  import opened Mailbox

  /** metadata.json, or its temporary, is whole or was cut short while being written. */
  datatype MetaFile = Whole(meta: Meta) | Partial

  /** One user's staging directory, mailbox directory, metadata.json and metadata.json.tmp. */
  datatype Box = Box(temp: map<string, string>, files: map<string, string>, meta: Option<MetaFile>,
                     metaTmp: Option<MetaFile>)

  const EMPTY_BOX := Box(map[], map[], None, None)

  type Disk = map<string, Box>

  function BoxOf(disk: Disk, user: string): Box {
    if user in disk then disk[user] else EMPTY_BOX
  }

  /** The length of a character in UTF-8. */
  function CharOctets(c: char): nat {
    if c as int < 0x80 then 1 else if c as int < 0x800 then 2 else if c as int < 0x1_0000 then 3 else 4
  }

  function Octets(text: string): nat {
    if text == "" then 0 else CharOctets(text[0]) + Octets(text[1..])
  }

  /** For each mailbox file ever written, the text it was to hold. */
  type Intended = map<(string, string), string>

  /** metadata.json is absent or whole, each entry has its file, and each file in the mailbox is complete. */
  ghost predicate BoxOk(user: string, box: Box, intended: Intended) {
    && (box.meta.Some? ==> box.meta.value.Whole? && Distinct(box.meta.value.meta))
    && (box.meta.Some? ==> forall i :: 0 <= i < |box.meta.value.meta| ==> EntryOk(box.meta.value.meta[i], box))
    && (forall name :: name in box.files ==> (user, name) in intended && box.files[name] == intended[(user, name)])
    && (forall name :: name in box.temp ==> (user, name) in intended)
  }

  /** The entry's file exists, and its recorded size is the file's size, or 0 where the size could not be read. */
  ghost predicate EntryOk(e: Entry, box: Box) {
    e.name in box.files && (e.size == Octets(box.files[e.name]) || e.size == 0)
  }

  ghost predicate DiskOk(disk: Disk, intended: Intended) {
    forall user :: user in disk ==> BoxOk(user, disk[user], intended)
  }

  /** What loading metadata.json yields: a missing or unreadable file reads as an empty mailbox. */
  function MetaOf(box: Box): Meta {
    match box.meta
    case Some(Whole(m)) => m
    case _ => []
  }

  /** Along the given states user's metadata is what it was in before or what it is in after, and no other user's
      box differs from before. */
  ghost predicate OnlyMeta(states: seq<Disk>, before: Disk, after: Disk, user: string) {
    forall i :: 0 <= i < |states| ==> MetaOldOrNew(states[i], before, after, user)
  }

  ghost predicate MetaOldOrNew(d: Disk, before: Disk, after: Disk, user: string) {
    && (BoxOf(d, user).meta == BoxOf(before, user).meta || BoxOf(d, user).meta == BoxOf(after, user).meta)
    && forall u :: u != user ==> BoxOf(d, u) == BoxOf(before, u)
  }

  /** Two stretches in a row, of which at most one changes the metadata. */
  lemma OnlyMetaThen(t0: seq<Disk>, t1: seq<Disk>, t2: seq<Disk>, d0: Disk, d1: Disk, d2: Disk, user: string)
    requires t0 <= t1 <= t2 && OnlyMeta(t1[|t0|..], d0, d1, user) && OnlyMeta(t2[|t1|..], d1, d2, user)
    requires forall u :: u != user ==> BoxOf(d1, u) == BoxOf(d0, u)
    requires BoxOf(d1, user).meta == BoxOf(d0, user).meta || BoxOf(d2, user).meta == BoxOf(d1, user).meta
    ensures OnlyMeta(t2[|t0|..], d0, d2, user)
  {
    hide BoxOf;
    forall i | 0 <= i < |t2[|t0|..]| ensures MetaOldOrNew(t2[|t0|..][i], d0, d2, user) {
      if i < |t1| - |t0| {
        assert t2[|t0|..][i] == t1[|t0|..][i];
      } else {
        assert t2[|t0|..][i] == t2[|t1|..][i - (|t1| - |t0|)];
      }
    }
  }

  /** Along the given states the staging file holds some beginning of the text. */
  ghost predicate Staging(states: seq<Disk>, user: string, name: string, text: string) {
    forall i :: 0 <= i < |states| ==> name in BoxOf(states[i], user).temp && BoxOf(states[i], user).temp[name] <= text
  }

  lemma StagingThen(t0: seq<Disk>, t1: seq<Disk>, d: Disk, user: string, name: string, text: string)
    requires t0 <= t1 && Staging(t1[|t0|..], user, name, text)
    requires name in BoxOf(d, user).temp && BoxOf(d, user).temp[name] <= text
    ensures Staging((t1 + [d])[|t0|..], user, name, text)
  {
    assert (t1 + [d])[|t0|..] == t1[|t0|..] + [d];
  }

  lemma NothingStaged(t: seq<Disk>, user: string, name: string, text: string)
    ensures Staging(t[|t|..], user, name, text)
  {
  }

  lemma TempBoxOk(user: string, box: Box, name: string, text: string, intended: Intended)
    requires BoxOk(user, box, intended) && (user, name) in intended
    ensures BoxOk(user, box.(temp := box.temp[name := text]), intended)
  {
  }

  /** So in every state that DiskOk describes, whatever is listed is complete on disk. */
  lemma ListedIsComplete(disk: Disk, intended: Intended, user: string, item: Item)
    requires DiskOk(disk, intended) && item in Listing(MetaOf(BoxOf(disk, user)))
    ensures var files := BoxOf(disk, user).files;
            && item.name in files && (user, item.name) in intended && files[item.name] == intended[(user, item.name)]
            && (item.size == Octets(files[item.name]) || item.size == 0)
  {
    ListingNames(MetaOf(BoxOf(disk, user)), item);
    var e :| e in MetaOf(BoxOf(disk, user)) && !e.deleted && ItemOf(e) == item;
    assert EntryOk(e, BoxOf(disk, user));
  }

  class FileSystem {
    /** Every read and write succeeds. */
    const reliable: bool
    var disk: Disk
    ghost var trace: seq<Disk>
    ghost var intended: Intended

    ghost predicate Valid()
      reads this
    {
      DiskOk(disk, intended) && forall i :: 0 <= i < |trace| ==> DiskOk(trace[i], intended)
    }

    constructor (reliable: bool)
      ensures Valid() && this.reliable == reliable && disk == map[] && trace == [] && intended == map[]
    {
      this.reliable := reliable;
      disk, trace, intended := map[], [], map[];
    }

    /** One state of the disk is followed by the next. */
    method Become(user: string, box: Box)
      requires Valid() && BoxOk(user, box, intended)
      modifies this`disk, this`trace
      ensures Valid() && disk == old(disk)[user := box] && trace == old(trace) + [disk]
      ensures OnlyMeta(trace[|old(trace)|..], old(disk), disk, user)
    {
      hide BoxOk;
      disk := disk[user := box];
      trace := trace + [disk];
    }

    ghost method Intend(user: string, name: string, text: string)
      requires Valid() && ((user, name) in intended ==> intended[(user, name)] == text)
      modifies this`intended
      ensures Valid() && intended == old(intended)[(user, name) := text]
    {
      intended := intended[(user, name) := text];
    }

    /** A crash: the disk is left in some state it has passed through, and the program starts over from there. */
    method CrashAndRestart(left: Disk)
      requires Valid() && left in trace
      modifies this`disk
      ensures Valid() && disk == left
    {
      disk := left;
    }

    /** Opens a staging file for writing, which empties it, and writes text; a crash or an error leaves some prefix. */
    method WriteTemp(user: string, name: string, text: string) returns (ok: bool)
      requires Valid() && ((user, name) in intended ==> intended[(user, name)] == text)
      modifies this
      ensures reliable ==> ok
      ensures Valid() && intended == old(intended)[(user, name) := text]
      ensures old(trace) <= trace && OnlyMeta(trace[|old(trace)|..], old(disk), disk, user)
      ensures Staging(trace[|old(trace)|..], user, name, text)
      ensures var box := BoxOf(disk, user);
              && name in box.temp && box.temp[name] <= text && (ok ==> box.temp[name] == text)
              && disk == old(disk)[user := BoxOf(old(disk), user).(temp := box.temp)]
    {
      Intend(user, name, text);
      var n: nat :| n <= |text|;
      var box := BoxOf(disk, user);
      TempBoxOk(user, box, name, text[..n], intended);
      TempBoxOk(user, box, name, text, intended);
      hide BoxOk, OnlyMeta, Staging;
      Become(user, box.(temp := box.temp[name := text[..n]]));
      NothingStaged(old(trace), user, name, text);
      StagingThen(old(trace), old(trace), disk, user, name, text);
      var fails: bool := *;
      ok := reliable || !fails;
      if ok {
        ghost var t1, d1 := trace, disk;
        Become(user, box.(temp := box.temp[name := text]));
        StagingThen(old(trace), t1, disk, user, name, text);
        OnlyMetaThen(old(trace), t1, trace, old(disk), d1, disk, user);
      }
    }

    /** os.replace from the staging directory into the mailbox: one step. */
    method MoveIn(user: string, name: string) returns (ok: bool)
      requires Valid() && name in BoxOf(disk, user).temp
      requires (user, name) in intended && BoxOf(disk, user).temp[name] == intended[(user, name)]
      modifies this`disk, this`trace
      ensures reliable ==> ok
      ensures Valid() && old(trace) <= trace && OnlyMeta(trace[|old(trace)|..], old(disk), disk, user)
      ensures if !ok then disk == old(disk)
              else
                var box := BoxOf(old(disk), user);
                disk == old(disk)[user := box.(files := box.files[name := box.temp[name]], temp := box.temp - {name})]
    {
      var fails: bool := *;
      ok := reliable || !fails;
      if ok {
        var box := BoxOf(disk, user);
        Become(user, box.(files := box.files[name := box.temp[name]], temp := box.temp - {name}));
      }
    }

    /** Reads metadata.json; an error reads as an empty mailbox. */
    method LoadMetadata(user: string) returns (meta: Meta, ok: bool)
      ensures reliable ==> ok
      ensures meta == if ok then MetaOf(BoxOf(disk, user)) else []
    {
      var fails: bool := *;
      ok := reliable || !fails;
      meta := if ok then MetaOf(BoxOf(disk, user)) else [];
    }

    method GetSize(user: string, name: string) returns (size: nat)
      requires name in BoxOf(disk, user).files
      ensures size == Octets(BoxOf(disk, user).files[name]) || (!reliable && size == 0)
    {
      var fails: bool := *;
      size := if reliable || !fails then Octets(BoxOf(disk, user).files[name]) else 0;
    }

    /** Writes metadata.json.tmp; a crash or an error leaves it cut short. */
    method WriteMetaTmp(user: string, meta: Meta) returns (ok: bool)
      requires Valid()
      modifies this`disk, this`trace
      ensures reliable ==> ok
      ensures Valid() && old(trace) <= trace && OnlyMeta(trace[|old(trace)|..], old(disk), disk, user)
      ensures disk == old(disk)[user := BoxOf(old(disk), user).(metaTmp := Some(if ok then Whole(meta) else Partial))]
    {
      var box := BoxOf(disk, user);
      assert BoxOk(user, box.(metaTmp := Some(Partial)), intended);
      assert BoxOk(user, box.(metaTmp := Some(Whole(meta))), intended);
      hide BoxOk, OnlyMeta;
      Become(user, box.(metaTmp := Some(Partial)));
      var fails: bool := *;
      ok := reliable || !fails;
      if ok {
        ghost var t1, d1 := trace, disk;
        Become(user, box.(metaTmp := Some(Whole(meta))));
        OnlyMetaThen(old(trace), t1, trace, old(disk), d1, disk, user);
        assert disk == old(disk)[user := box.(metaTmp := Some(Whole(meta)))];
      }
    }

    /** os.replace of metadata.json by metadata.json.tmp: one step. */
    method ReplaceMeta(user: string, meta: Meta) returns (ok: bool)
      requires Valid() && BoxOf(disk, user).metaTmp == Some(Whole(meta))
      requires Distinct(meta) && forall i :: 0 <= i < |meta| ==> EntryOk(meta[i], BoxOf(disk, user))
      modifies this`disk, this`trace
      ensures reliable ==> ok
      ensures Valid() && old(trace) <= trace && OnlyMeta(trace[|old(trace)|..], old(disk), disk, user)
      ensures disk == if ok then old(disk)[user := BoxOf(old(disk), user).(meta := Some(Whole(meta)), metaTmp := None)]
                      else old(disk)
    {
      var fails: bool := *;
      ok := reliable || !fails;
      if ok {
        var box := BoxOf(disk, user);
        Become(user, box.(meta := box.metaTmp, metaTmp := None));
      }
    }
  }
}
