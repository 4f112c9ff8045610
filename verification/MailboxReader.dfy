/** mailbox_reader.py: read-only access to a mailbox. */
module MailboxReader {
  import opened Wrappers
  import opened Text
  import opened Mailbox
  import opened FileSystem

  function Total(items: seq<Item>): nat {
    if items == [] then 0 else items[0].size + Total(items[1..])
  }

  lemma {:induction false} TotalConcat(a: seq<Item>, b: seq<Item>)
    ensures Total(a + b) == Total(a) + Total(b)
  {
    if a == [] {
      assert a + b == b;
    } else {
      assert (a + b)[1..] == a[1..] + b;
      TotalConcat(a[1..], b);
    }
  }

  class MailboxReader {
    const fs: FileSystem

    constructor (fs: FileSystem)
      ensures this.fs == fs
    {
      this.fs := fs;
    }

    /** The visible messages in the order of their arrival, and their total size. */
    method ListMessages(user: string) returns (listing: seq<Item>, totalSize: nat, readOk: bool)
      ensures fs.reliable ==> readOk
      ensures listing == if readOk then Listing(MetaOf(BoxOf(fs.disk, user))) else []
      ensures totalSize == Total(listing)
    {
      var messages;
      messages, readOk := fs.LoadMetadata(user);
      listing, totalSize := [], 0;
      for i := 0 to |messages|
        invariant listing == Listing(messages[..i]) && totalSize == Total(listing)
      {
        var meta := messages[i];
        assert messages[..i + 1] == messages[..i] + [meta];
        ListingConcat(messages[..i], [meta]);
        if meta.deleted {
          continue;
        }
        TotalConcat(listing, [ItemOf(meta)]);
        listing := listing + [ItemOf(meta)];
        totalSize := totalSize + meta.size;
      }
      assert messages[..|messages|] == messages;
    }

    /** The text of a stored message; None when the file is missing or cannot be read. */
    method ReadMessage(user: string, name: string) returns (content: Option<string>)
      ensures content.Some?
              ==> name in BoxOf(fs.disk, user).files && content.value == Newlines(BoxOf(fs.disk, user).files[name])
      ensures name !in BoxOf(fs.disk, user).files ==> content == None
      ensures fs.reliable && name in BoxOf(fs.disk, user).files ==> content.Some?
    {
      if name !in BoxOf(fs.disk, user).files {
        return None;
      }
      var fails: bool := *;
      content := if fs.reliable || !fails then Some(Newlines(BoxOf(fs.disk, user).files[name])) else None;
    }
  }
}
