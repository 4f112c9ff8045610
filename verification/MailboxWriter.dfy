/** mailbox_writer.py: messages are staged, moved into the mailbox in one step, and only then entered in the metadata,
    which is itself replaced in one step. */
module MailboxWriter {
  import opened Wrappers
  import opened Mailbox
  import opened FileSystem

  /** What became of a write: the message was or was not moved into the mailbox; the metadata was read, or an error
      made it look empty; the new metadata was or was not stored. */
  datatype WriteResult = NotWritten | Written(readOk: bool, metaOk: bool)

  /** after is the loaded metadata with one new entry at the end: the message, with its size, or 0 if that could not
      be read. */
  ghost predicate Entered(loaded: Meta, after: Option<MetaFile>, uid: string, name: string, text: string,
                          reliable: bool) {
    && after.Some? && after.value.Whole? && |after.value.meta| == |loaded| + 1
    && var e := after.value.meta[|loaded|];
       && after.value.meta == loaded + [e]
       && e.name == name && e.uid == uid && !e.deleted && (e.size == Octets(text) || (!reliable && e.size == 0))
  }

  /** Once a message is entered, every earlier entry is still there exactly if the old metadata were read, or there were
      none; after a failed read the message is the only one listed. */
  ghost predicate KeepsEntries(before: Meta, after: Meta, readOk: bool, name: string) {
    && (Extends(before, after) <==> readOk || before == [])
    && (!readOk ==> |Listing(after)| == 1 && Listing(after)[0].name == name)
  }

  lemma EntersOrEmpties(before: Meta, readOk: bool, after: Option<MetaFile>, uid: string, name: string, text: string,
      reliable: bool)
    requires Entered(if readOk then before else [], after, uid, name, text, reliable) && !Has(before, name)
    ensures KeepsEntries(before, after.value.meta, readOk, name)
  {
    var m := after.value.meta;
    if readOk {
      assert forall i :: 0 <= i < |before| ==> m[i] == before[i];
    } else {
      assert m[1..] == [] && Listing(m) == [ItemOf(m[0])] + Listing([]);
      if before != [] {
        assert before[0].name != name && m[0].name == name;
      }
    }
  }

  /** Each entry has its file and the length of that file. */
  ghost predicate SizesExact(box: Box) {
    forall i :: 0 <= i < |MetaOf(box)| ==>
      var e := MetaOf(box)[i]; e.name in box.files && e.size == Octets(box.files[e.name])
  }

  lemma SizesStay(before: Box, after: Box, uid: string, name: string, text: string)
    requires SizesExact(before) && name !in before.files && after.files == before.files[name := text]
    requires after.meta == before.meta || Entered(MetaOf(before), after.meta, uid, name, text, true)
    ensures SizesExact(after)
  {
    hide Octets;
    var was, now := MetaOf(before), MetaOf(after);
    assert after.meta != before.meta ==> now == was + [now[|was|]];
    forall i | 0 <= i < |now| ensures now[i].name in after.files && now[i].size == Octets(after.files[now[i].name]) {
      if i < |was| {
        assert now[i] == was[i];
      }
    }
  }

  lemma SizesMarked(before: Box, after: Box, name: string)
    requires SizesExact(before) && after.files == before.files
    requires after.meta == before.meta || after.meta == Some(Whole(MarkDeleted(MetaOf(before), name)))
    ensures SizesExact(after)
  {
    hide Octets;
    var was, now := MetaOf(before), MetaOf(after);
    forall i | 0 <= i < |now| ensures now[i].name in after.files && now[i].size == Octets(after.files[now[i].name]) {
      assert now[i].name == was[i].name && now[i].size == was[i].size;
    }
  }

  class MailboxWriter {
    const fs: FileSystem

    constructor (fs: FileSystem)
      ensures this.fs == fs
    {
      this.fs := fs;
    }

    /** Replaces metadata.json by way of a temporary; errors are logged and swallowed. */
    method SaveMetadata(user: string, meta: Meta) returns (ok: bool)
      requires fs.Valid() && Distinct(meta)
      requires forall i :: 0 <= i < |meta| ==> EntryOk(meta[i], BoxOf(fs.disk, user))
      modifies fs`disk, fs`trace
      ensures fs.reliable ==> ok
      ensures fs.Valid() && old(fs.trace) <= fs.trace
              && OnlyMeta(fs.trace[|old(fs.trace)|..], old(fs.disk), fs.disk, user)
      ensures BoxOf(fs.disk, user).meta == if ok then Some(Whole(meta)) else BoxOf(old(fs.disk), user).meta
      ensures BoxOf(fs.disk, user).files == BoxOf(old(fs.disk), user).files
      ensures forall u :: u != user ==> BoxOf(fs.disk, u) == BoxOf(old(fs.disk), u)
    {
      ok := fs.WriteMetaTmp(user, meta);
      if ok {
        ok := fs.ReplaceMeta(user, meta);
      }
    }

    /** Stages the message and moves it into the mailbox. */
    method Store(user: string, text: string, name: string) returns (ok: bool)
      requires fs.Valid() && (user, name) !in fs.intended
      modifies fs
      ensures fs.reliable ==> ok
      ensures fs.Valid() && fs.intended == old(fs.intended)[(user, name) := text]
      ensures old(fs.trace) <= fs.trace && OnlyMeta(fs.trace[|old(fs.trace)|..], old(fs.disk), fs.disk, user)
      ensures forall u :: u != user ==> BoxOf(fs.disk, u) == BoxOf(old(fs.disk), u)
      ensures var before, after := BoxOf(old(fs.disk), user), BoxOf(fs.disk, user);
              after.meta == before.meta && after.files == if ok then before.files[name := text] else before.files
    {
      ghost var t0, d0 := fs.trace, fs.disk;
      ok := fs.WriteTemp(user, name, text);
      if ok {
        ghost var t1, d1 := fs.trace, fs.disk;
        ok := fs.MoveIn(user, name);
        OnlyMetaThen(t0, t1, fs.trace, d0, d1, fs.disk, user);
      }
    }

    /** Enters a message that is in the mailbox in the metadata. */
    method Enter(user: string, uid: string, name: string, ghost text: string) returns (readOk: bool, metaOk: bool)
      requires fs.Valid() && name in BoxOf(fs.disk, user).files && BoxOf(fs.disk, user).files[name] == text
      requires !Has(MetaOf(BoxOf(fs.disk, user)), name)
      modifies fs`disk, fs`trace
      ensures fs.Valid() && (fs.reliable ==> readOk && metaOk)
      ensures old(fs.trace) <= fs.trace && OnlyMeta(fs.trace[|old(fs.trace)|..], old(fs.disk), fs.disk, user)
      ensures forall u :: u != user ==> BoxOf(fs.disk, u) == BoxOf(old(fs.disk), u)
      ensures BoxOf(fs.disk, user).files == BoxOf(old(fs.disk), user).files
      ensures var before, after := BoxOf(old(fs.disk), user), BoxOf(fs.disk, user);
              && (!metaOk ==> after.meta == before.meta)
              && (metaOk ==> Entered(if readOk then MetaOf(before) else [], after.meta, uid, name, text, fs.reliable))
    {
      var meta;
      meta, readOk := fs.LoadMetadata(user);
      var size := fs.GetSize(user, name);
      var e := Entry(name, uid, size, false);
      PutFresh(meta, e);
      PutDistinct(meta, e);
      var updated := Put(meta, e);
      metaOk := SaveMetadata(user, updated);
    }

    /** Stores text (None where rendering the message failed) under the fresh name given.  In every state the disk
        passes through, each box is in order and the user's metadata is wholly the old or wholly the new. */
    method WriteEmail(user: string, text: Option<string>, uid: string, name: string) returns (r: WriteResult)
      requires fs.Valid() && (user, name) !in fs.intended
      modifies fs
      ensures fs.Valid() && (fs.reliable && text.Some? ==> r == Written(true, true))
      ensures old(fs.trace) <= fs.trace && OnlyMeta(fs.trace[|old(fs.trace)|..], old(fs.disk), fs.disk, user)
      ensures forall u :: u != user ==> BoxOf(fs.disk, u) == BoxOf(old(fs.disk), u)
      ensures fs.intended == old(fs.intended)
              || (text.Some? && fs.intended == old(fs.intended)[(user, name) := text.value])
      ensures var before, after := BoxOf(old(fs.disk), user), BoxOf(fs.disk, user);
              match r
              case NotWritten => after.meta == before.meta && after.files == before.files
              case Written(readOk, metaOk) =>
                && text.Some? && after.files == before.files[name := text.value]
                && (!metaOk ==> after.meta == before.meta)
                && (metaOk
                    ==> Entered(if readOk then MetaOf(before) else [], after.meta, uid, name, text.value, fs.reliable))
                && (metaOk ==> KeepsEntries(MetaOf(before), MetaOf(after), readOk, name))
      ensures fs.reliable && SizesExact(BoxOf(old(fs.disk), user)) ==> SizesExact(BoxOf(fs.disk, user))
    {
      hide SizesExact;
      if text.None? {
        return NotWritten;
      }
      ghost var t0, d0 := fs.trace, fs.disk;
      assert !Has(MetaOf(BoxOf(fs.disk, user)), name) && name !in BoxOf(fs.disk, user).files;
      var ok := Store(user, text.value, name);
      if !ok {
        return NotWritten;
      }
      ghost var t1, d1 := fs.trace, fs.disk;
      hide BoxOf, OnlyMeta, Has, KeepsEntries;
      var readOk, metaOk := Enter(user, uid, name, text.value);
      if metaOk {
        EntersOrEmpties(MetaOf(BoxOf(d0, user)), readOk, BoxOf(fs.disk, user).meta, uid, name, text.value, fs.reliable);
      }
      OnlyMetaThen(t0, t1, fs.trace, d0, d1, fs.disk, user);
      if fs.reliable && SizesExact(BoxOf(d0, user)) {
        SizesStay(BoxOf(d0, user), BoxOf(fs.disk, user), uid, name, text.value);
      }
      return Written(readOk, metaOk);
    }

    /** Flags the entry name as deleted, if there is one; the result does not tell whether storing that worked. */
    method MarkMessageAsDeleted(user: string, name: string) returns (found: bool, metaOk: bool)
      requires fs.Valid()
      modifies fs`disk, fs`trace
      ensures fs.Valid() && old(fs.trace) <= fs.trace
              && OnlyMeta(fs.trace[|old(fs.trace)|..], old(fs.disk), fs.disk, user)
      ensures BoxOf(fs.disk, user).files == BoxOf(old(fs.disk), user).files
      ensures forall u :: u != user ==> BoxOf(fs.disk, u) == BoxOf(old(fs.disk), u)
      ensures found ==> Has(MetaOf(BoxOf(old(fs.disk), user)), name)
      ensures fs.reliable ==> (found <==> Has(MetaOf(BoxOf(old(fs.disk), user)), name)) && (found ==> metaOk)
      ensures BoxOf(fs.disk, user).meta
           == if found && metaOk then Some(Whole(MarkDeleted(MetaOf(BoxOf(old(fs.disk), user)), name)))
              else BoxOf(old(fs.disk), user).meta
      ensures SizesExact(BoxOf(old(fs.disk), user)) ==> SizesExact(BoxOf(fs.disk, user))
    {
      hide SizesExact;
      ghost var before := BoxOf(fs.disk, user);
      var meta, readOk := fs.LoadMetadata(user);
      if Has(meta, name) {
        MarkDistinct(meta, name);
        metaOk := SaveMetadata(user, MarkDeleted(meta, name));
        found := true;
      } else {
        found, metaOk := false, false;
      }
      if SizesExact(before) {
        SizesMarked(before, BoxOf(fs.disk, user), name);
      }
    }
  }
}
