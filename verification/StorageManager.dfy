/** storage_manager.py: the writer and the reader behind one lock per user. */
module StorageManager {
  import opened Wrappers
  import opened Text
  import opened Mailbox
  import opened FileSystem
  import MailboxReader
  import opened MailboxWriter

  class Lock {
    var held: bool
    /** How often it has been taken. */
    ghost var taken: nat

    constructor ()
      ensures !held && taken == 0
    {
      held, taken := false, 0;
    }

    method Acquire()
      requires !held
      modifies this
      ensures held && taken == old(taken) + 1
    {
      held, taken := true, taken + 1;
    }

    method Release()
      requires held
      modifies this`held
      ensures !held
    {
      held := false;
    }
  }

  class StorageManager {
    const fs: FileSystem
    const reader: MailboxReader.MailboxReader
    const writer: MailboxWriter
    var locks: map<string, Lock>

    /** No operation is in progress: every lock is free.  No two users share one. */
    ghost predicate Valid()
      reads this, locks.Values, fs
    {
      && reader.fs == fs && writer.fs == fs && fs.Valid()
      && (forall u :: u in locks ==> !locks[u].held)
      && forall u, v :: u in locks && v in locks && u != v ==> locks[u] != locks[v]
    }

    ghost function Taken(user: string): nat
      reads this`locks, locks.Values
    {
      if Lower(user) in locks then locks[Lower(user)].taken else 0
    }

    constructor (fs: FileSystem)
      requires fs.Valid()
      ensures Valid() && this.fs == fs && locks == map[]
    {
      this.fs := fs;
      reader := new MailboxReader.MailboxReader(fs);
      writer := new MailboxWriter(fs);
      locks := map[];
    }

    /** The user's lock, made on first use; user names differing only in case share it. */
    method GetLock(username: string) returns (lock: Lock)
      requires Valid()
      modifies this`locks
      ensures Valid() && Lower(username) in locks && locks[Lower(username)] == lock
      ensures forall u :: u in old(locks) ==> u in locks && locks[u] == old(locks[u])
      ensures forall u :: u in locks && u !in old(locks) ==> u == Lower(username) && fresh(locks[u])
      ensures Taken(username) == old(Taken(username))
      ensures fresh(locks.Values - old(locks.Values))
    {
      var name := Lower(username);
      if name !in locks {
        var made := new Lock();
        locks := locks[name := made];
      }
      lock := locks[name];
    }

    /** Stores a message; saved means the message file is in the mailbox. */
    method SaveEmail(user: string, text: Option<string>, uid: string, name: string)
      returns (saved: bool, r: WriteResult)
      requires Valid() && (user, name) !in fs.intended
      modifies this`locks, locks.Values, fs
      ensures Taken(user) == old(Taken(user)) + 1
      ensures Valid() && fresh(locks.Values - old(locks.Values)) && saved == r.Written?
      ensures fs.reliable && text.Some? ==> r == Written(true, true)
      ensures old(fs.trace) <= fs.trace && OnlyMeta(fs.trace[|old(fs.trace)|..], old(fs.disk), fs.disk, user)
      ensures forall u :: u != user ==> BoxOf(fs.disk, u) == BoxOf(old(fs.disk), u)
      ensures fs.intended == old(fs.intended)
              || (text.Some? && fs.intended == old(fs.intended)[(user, name) := text.value])
      ensures var before, after := BoxOf(old(fs.disk), user), BoxOf(fs.disk, user);
              match r
              case NotWritten => after.meta == before.meta && after.files == before.files
              case Written(readOk, metaOk) =>
                && text.Some? && after.files == before.files[name := text.value]
                && (!metaOk ==> after.meta == before.meta)
                && (metaOk
                    ==> Entered(if readOk then MetaOf(before) else [], after.meta, uid, name, text.value, fs.reliable))
      ensures fs.reliable && SizesExact(BoxOf(old(fs.disk), user)) ==> SizesExact(BoxOf(fs.disk, user))
    {
      hide OnlyMeta, BoxOf, Entered, SizesExact, KeepsEntries, Lower;
      var lock := GetLock(user);
      lock.Acquire();
      r := writer.WriteEmail(user, text, uid, name);
      saved := r.Written?;
      lock.Release();
    }

    method ListMessages(user: string) returns (listing: seq<Item>, readOk: bool)
      requires Valid()
      modifies this`locks, locks.Values
      ensures Taken(user) == old(Taken(user)) + 1
      ensures Valid() && fresh(locks.Values - old(locks.Values))
      ensures fs.reliable ==> readOk
      ensures listing == if readOk then Listing(MetaOf(BoxOf(fs.disk, user))) else []
    {
      var lock := GetLock(user);
      lock.Acquire();
      var total;
      listing, total, readOk := reader.ListMessages(user);
      lock.Release();
    }

    method GetMessageContent(user: string, name: string) returns (content: Option<string>)
      requires Valid()
      modifies this`locks, locks.Values
      ensures Taken(user) == old(Taken(user)) + 1
      ensures Valid() && fresh(locks.Values - old(locks.Values))
      ensures fs.reliable && name in BoxOf(fs.disk, user).files ==> content.Some?
      ensures content.Some?
              ==> name in BoxOf(fs.disk, user).files && content.value == Newlines(BoxOf(fs.disk, user).files[name])
    {
      var lock := GetLock(user);
      lock.Acquire();
      content := reader.ReadMessage(user, name);
      lock.Release();
    }

    method DeleteEmail(user: string, name: string) returns (found: bool, metaOk: bool)
      requires Valid()
      modifies this`locks, locks.Values, fs`disk, fs`trace
      ensures Taken(user) == old(Taken(user)) + 1
      ensures Valid() && fresh(locks.Values - old(locks.Values))
      ensures old(fs.trace) <= fs.trace && OnlyMeta(fs.trace[|old(fs.trace)|..], old(fs.disk), fs.disk, user)
      ensures BoxOf(fs.disk, user).files == BoxOf(old(fs.disk), user).files
      ensures forall u :: u != user ==> BoxOf(fs.disk, u) == BoxOf(old(fs.disk), u)
      ensures found ==> Has(MetaOf(BoxOf(old(fs.disk), user)), name)
      ensures fs.reliable ==> (found <==> Has(MetaOf(BoxOf(old(fs.disk), user)), name)) && (found ==> metaOk)
      ensures BoxOf(fs.disk, user).meta
           == if found && metaOk then Some(Whole(MarkDeleted(MetaOf(BoxOf(old(fs.disk), user)), name)))
              else BoxOf(old(fs.disk), user).meta
      ensures SizesExact(BoxOf(old(fs.disk), user)) ==> SizesExact(BoxOf(fs.disk, user))
    {
      hide OnlyMeta, BoxOf, Has, MarkDeleted, SizesExact, Lower, MetaOf;
      var lock := GetLock(user);
      lock.Acquire();
      found, metaOk := writer.MarkMessageAsDeleted(user, name);
      lock.Release();
    }
  }
}
