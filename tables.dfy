/**
 * The users collection (`is_banned`, `ban_user`, `unban_user`) and the
 * files collection as `index_channel` fills it: one upsert per document or
 * video of a channel's history, keyed by message id and channel id.
 */
module Tables {
  import opened Wrappers
  import FileInfo
  import opened Search

  // ---------------------------------------------------------------------------
  // Users

  /** The users collection: the `banned` flag of every user that was ever banned or unbanned. */
  class UserTable {
    var banned: map<int, bool>

    constructor ()
      ensures banned == map[]
    {
      banned := map[];
    }

    /** `is_banned`: a user without a document is not banned. */
    function IsBanned(userId: int): bool
      reads this
    {
      userId in banned && banned[userId]
    }

    /** `ban_user`: sets the flag, creating the document when missing. */
    method BanUser(userId: int)
      modifies this
      ensures banned == old(banned)[userId := true]
      ensures IsBanned(userId)
      ensures forall u :: u != userId ==> IsBanned(u) == old(IsBanned(u))
    {
      banned := banned[userId := true];
    }

    /** `unban_user`: clears the flag, creating the document when missing. */
    method UnbanUser(userId: int)
      modifies this
      ensures banned == old(banned)[userId := false]
      ensures !IsBanned(userId)
      ensures forall u :: u != userId ==> IsBanned(u) == old(IsBanned(u))
    {
      banned := banned[userId := false];
    }
  }

  // ---------------------------------------------------------------------------
  // Files

  /** The upsert filter `{"file_id": message.id, "channel_id": channel_id}`. */
  predicate SameKey(a: FileRecord, b: FileRecord)
  {
    a.fileId == b.fileId && a.channelId == b.channelId
  }

  /** No two records share a key. */
  predicate UniqueKeys(files: seq<FileRecord>)
  {
    forall i, j :: 0 <= i < j < |files| ==> !SameKey(files[i], files[j])
  }

  /** `update_one(key, {"$set": rec}, upsert=True)`: replaces the record with that key, or appends one. */
  function Upserted(files: seq<FileRecord>, rec: FileRecord): (r: seq<FileRecord>)
    ensures forall x :: x in r ==> x == rec || x in files
  {
    if files == [] then [rec]
    else if SameKey(files[0], rec) then [rec] + files[1..]
    else [files[0]] + Upserted(files[1..], rec)
  }

  /**
   * On a collection with unique keys, the upsert leaves `rec` as the only
   * record with its key, keeps every other record, and grows the collection
   * exactly when the key was new.
   */
  lemma {:induction false} UpsertSpec(files: seq<FileRecord>, rec: FileRecord)
    requires UniqueKeys(files)
    ensures var r := Upserted(files, rec);
      && UniqueKeys(r)
      && rec in r
      && (forall x :: x in r ==> x == rec || (x in files && !SameKey(x, rec)))
      && (forall x :: x in files && !SameKey(x, rec) ==> x in r)
      && (|r| == |files| <==> exists x :: x in files && SameKey(x, rec))
      && (|r| == |files| + 1 <==> forall x :: x in files ==> !SameKey(x, rec))
  {
    if files != [] {
      var rest := files[1..];
      assert UniqueKeys(rest) by {
        forall i, j | 0 <= i < j < |rest| ensures !SameKey(rest[i], rest[j]) {
          assert rest[i] == files[i + 1] && rest[j] == files[j + 1];
        }
      }
      forall x | x in rest ensures !SameKey(files[0], x) {
        var j :| 0 <= j < |rest| && rest[j] == x;
        assert files[j + 1] == x;
      }
      if !SameKey(files[0], rec) {
        UpsertSpec(rest, rec);
        assert files == [files[0]] + rest;
      }
    }
  }

  /** Upserting the same record twice is the same as once. */
  lemma {:induction false} UpsertIdempotent(files: seq<FileRecord>, rec: FileRecord)
    ensures Upserted(Upserted(files, rec), rec) == Upserted(files, rec)
  {
    if files != [] && !SameKey(files[0], rec) {
      UpsertIdempotent(files[1..], rec);
    }
  }

  /** The part of a media object indexing reads. */
  datatype Media = Media(fileName: Option<string>, fileSize: int)

  /** A message of a channel's history. */
  datatype ChatMessage = ChatMessage(id: int, document: Option<Media>, video: Option<Media>)

  /** `message.document or message.video`: the document when there is one, else the video. */
  function MediaOf(msg: ChatMessage): Option<Media>
  {
    if msg.document.Some? then msg.document else msg.video
  }

  /** The document `index_channel` writes for a file of that name and size. */
  function RecordOf(channelId: int, id: int, name: string, size: int): (r: FileRecord)
    ensures r.fileId == id && r.channelId == channelId && r.fileName == name && r.fileSize == size
    ensures r.quality.None? || r.quality.value in FileInfo.QUALITY_VALUES
    ensures r.year.None? || 1900 <= r.year.value <= 2099
    ensures r.season.None? || 0 <= r.season.value <= 99
    ensures forall l :: l in r.language ==> l in FileInfo.LANGUAGES
    ensures var info := FileInfo.FileInfoOf(name);
      r.quality == info.quality && r.year == info.year && r.language == info.language && r.season == info.season
  {
    var info := FileInfo.FileInfoOf(name);
    FileInfo.ExtractionBounds(name);
    FileRecord(id, channelId, name, size, info.quality, info.year, info.language, info.season)
  }

  /** The collection after indexing, and whether the loop ran to the end. */
  datatype Indexing = Indexing(files: seq<FileRecord>, completed: bool)

  /**
   * `index_channel` over `history` in the order it is read: messages with
   * neither document nor video are skipped; a media without a file name
   * makes `parse_file_info(None)` raise, which ends the whole loop (the
   * records upserted before it stay).
   */
  function Indexed(files: seq<FileRecord>, channelId: int, history: seq<ChatMessage>): Indexing
    decreases |history|
  {
    if history == [] then Indexing(files, true)
    else match MediaOf(history[0])
      case None => Indexed(files, channelId, history[1..])
      case Some(m) =>
        if m.fileName.None? then Indexing(files, false)
        else Indexed(Upserted(files, RecordOf(channelId, history[0].id, m.fileName.value, m.fileSize)),
                     channelId, history[1..])
  }

  /** A message that indexing turns into a record. */
  predicate Indexable(msg: ChatMessage)
  {
    MediaOf(msg).Some? && MediaOf(msg).value.fileName.Some?
  }

  /** The record that an indexable message becomes. */
  predicate RecordFrom(x: FileRecord, channelId: int, msg: ChatMessage)
  {
    Indexable(msg) && x == RecordOf(channelId, msg.id, MediaOf(msg).value.fileName.value, MediaOf(msg).value.fileSize)
  }

  /** Indexing runs to the end exactly when no media in the history lacks a file name. */
  lemma {:induction false} IndexedCompletesIff(files: seq<FileRecord>, channelId: int, history: seq<ChatMessage>)
    ensures Indexed(files, channelId, history).completed <==>
      forall k :: 0 <= k < |history| ==> MediaOf(history[k]).None? || MediaOf(history[k]).value.fileName.Some?
    decreases |history|
  {
    if history != [] {
      var m := MediaOf(history[0]);
      if m.None? {
        IndexedCompletesIff(files, channelId, history[1..]);
        assert forall k :: 1 <= k < |history| ==> history[k] == history[1..][k - 1];
      } else if m.value.fileName.Some? {
        IndexedCompletesIff(Upserted(files, RecordOf(channelId, history[0].id, m.value.fileName.value, m.value.fileSize)),
                            channelId, history[1..]);
        assert forall k :: 1 <= k < |history| ==> history[k] == history[1..][k - 1];
      }
    }
  }

  /**
   * Indexing keeps keys unique, and every record it leaves either was there
   * before or is the record of an indexable message of the history.
   */
  lemma {:induction false} IndexedRecords(files: seq<FileRecord>, channelId: int, history: seq<ChatMessage>)
    requires UniqueKeys(files)
    ensures var out := Indexed(files, channelId, history).files;
      && UniqueKeys(out)
      && forall x :: x in out ==> x in files || exists k :: 0 <= k < |history| && RecordFrom(x, channelId, history[k])
    decreases |history|
  {
    if history != [] {
      var m := MediaOf(history[0]);
      if m.None? {
        IndexedRecords(files, channelId, history[1..]);
        RecordsFromTail(Indexed(files, channelId, history[1..]).files, files, channelId, history);
      } else if m.value.fileName.Some? {
        var rec := RecordOf(channelId, history[0].id, m.value.fileName.value, m.value.fileSize);
        var next := Upserted(files, rec);
        UpsertSpec(files, rec);
        IndexedRecords(next, channelId, history[1..]);
        assert RecordFrom(rec, channelId, history[0]);
        RecordsFromTail(Indexed(next, channelId, history[1..]).files, next, channelId, history);
      }
    }
  }

  /** The record an indexable message becomes. */
  function MessageRecord(channelId: int, msg: ChatMessage): FileRecord
    requires Indexable(msg)
  {
    RecordOf(channelId, msg.id, MediaOf(msg).value.fileName.value, MediaOf(msg).value.fileSize)
  }

  /** No indexable message of `history` has the key of `x`. */
  predicate KeyUntouched(x: FileRecord, channelId: int, history: seq<ChatMessage>)
  {
    x.channelId != channelId || forall k :: 0 <= k < |history| && Indexable(history[k]) ==> history[k].id != x.fileId
  }

  /**
   * When indexing runs to the end over messages with distinct ids, the record
   * of every indexable message is in the collection, and so is every earlier
   * record whose key no indexable message shares.
   */
  lemma {:induction false} IndexedComplete(files: seq<FileRecord>, channelId: int, history: seq<ChatMessage>)
    requires UniqueKeys(files)
    requires Indexed(files, channelId, history).completed
    requires forall i, j :: 0 <= i < j < |history| ==> history[i].id != history[j].id
    ensures var out := Indexed(files, channelId, history).files;
      && (forall k :: 0 <= k < |history| && Indexable(history[k]) ==> MessageRecord(channelId, history[k]) in out)
      && (forall x :: x in files && KeyUntouched(x, channelId, history) ==> x in out)
    decreases |history|
  {
    if history != [] {
      var rest := history[1..];
      assert forall k :: 1 <= k < |history| ==> history[k] == rest[k - 1];
      var m := MediaOf(history[0]);
      if m.None? {
        IndexedComplete(files, channelId, rest);
        forall x | KeyUntouched(x, channelId, history) ensures KeyUntouched(x, channelId, rest) {
          assert forall k :: 0 <= k < |rest| ==> rest[k] == history[k + 1];
        }
      } else if m.value.fileName.Some? {
        var rec := MessageRecord(channelId, history[0]);
        var next := Upserted(files, rec);
        UpsertSpec(files, rec);
        IndexedComplete(next, channelId, rest);
        var out := Indexed(next, channelId, rest).files;
        assert forall k :: 0 <= k < |rest| ==> rest[k] == history[k + 1];
        assert KeyUntouched(rec, channelId, rest);
        forall x | x in files && KeyUntouched(x, channelId, history) ensures x in out {
          assert !SameKey(x, rec);
        }
      }
    }
  }

  /** Origins in the rest of the history are origins in the whole history. */
  lemma RecordsFromTail(out: seq<FileRecord>, files: seq<FileRecord>, channelId: int, history: seq<ChatMessage>)
    requires history != []
    requires forall x :: x in out ==> x in files || exists k :: 0 <= k < |history[1..]| && RecordFrom(x, channelId, history[1..][k])
    ensures forall x :: x in out ==> x in files || exists k :: 0 <= k < |history| && RecordFrom(x, channelId, history[k])
  {
    forall x | x in out && x !in files
      ensures exists k :: 0 <= k < |history| && RecordFrom(x, channelId, history[k])
    {
      var k :| 0 <= k < |history[1..]| && RecordFrom(x, channelId, history[1..][k]);
      assert history[k + 1] == history[1..][k];
    }
  }

  /** A history without documents or videos leaves the collection as it was. */
  lemma {:induction false} TextOnlyHistoryChangesNothing(files: seq<FileRecord>, channelId: int, history: seq<ChatMessage>)
    requires forall k :: 0 <= k < |history| ==> MediaOf(history[k]).None?
    ensures Indexed(files, channelId, history) == Indexing(files, true)
    decreases |history|
  {
    if history != [] {
      assert forall k :: 0 <= k < |history[1..]| ==> history[1..][k] == history[k + 1];
      TextOnlyHistoryChangesNothing(files, channelId, history[1..]);
    }
  }

  /** The files collection. */
  class Catalog {
    var files: seq<FileRecord>

    ghost predicate Valid()
      reads this
    {
      UniqueKeys(files)
    }

    constructor ()
      ensures Valid() && files == []
    {
      files := [];
    }

    /** `index_channel`: the loop over the history, stopping at the first exception. */
    method IndexChannel(channelId: int, history: seq<ChatMessage>) returns (completed: bool)
      requires Valid()
      modifies this
      ensures Valid()
      ensures Indexing(files, completed) == Indexed(old(files), channelId, history)
    {
      var fs := files;
      var i := 0;
      while i < |history|
        invariant 0 <= i <= |history|
        invariant UniqueKeys(fs)
        invariant Indexed(fs, channelId, history[i..]) == Indexed(old(files), channelId, history)
      {
        var msg := history[i];
        assert history[i..][0] == msg && history[i..][1..] == history[i + 1..];
        var media := MediaOf(msg);
        if media.Some? {
          if media.value.fileName.None? {
            files := fs;
            return false;
          }
          var name := media.value.fileName.value;
          var info := FileInfo.ParseFileInfo(name);
          var rec := FileRecord(msg.id, channelId, name, media.value.fileSize,
                                info.quality, info.year, info.language, info.season);
          assert rec == RecordOf(channelId, msg.id, name, media.value.fileSize);
          UpsertSpec(fs, rec);
          fs := Upserted(fs, rec);
        }
        i := i + 1;
      }
      files := fs;
      completed := true;
    }
  }
}
