/** Student avatars: the media tables, the service steps over them, and the batch import. Queries, updates and storage
    operations may fail at any point, and the store remembers whether one has; each statement commits on its own. */
module AvatarSpec {
  import opened Records

  const AVATAR := "avatar"

  /** A row of student_media. */
  datatype MediaRow = MediaRow(studentId: string, mediaType: string, isPrimary: bool, deleted: bool)

  type Media = map<string, MediaRow>

  datatype ItemStatus = Matched | Ambiguous | Unmatched | Skipped | Failed | Imported

  /** A row of media_import_batch_items. */
  datatype ItemRow = ItemRow(id: string, status: ItemStatus, confirmedStudent: Option<string>,
                             finalMedia: Option<string>)

  /** A row of media_import_batches. */
  datatype BatchRow = BatchRow(total: nat, matched: nat, ambiguous: nat, unmatched: nat, failed: nat, imported: nat,
                               completed: bool)

  predicate IsLiveAvatar(row: MediaRow, studentId: string) {
    row.studentId == studentId && row.mediaType == AVATAR && !row.deleted
  }

  /** ListStudentMediaByType and CountStudentMediaByType for avatars. */
  function LiveAvatars(media: Media, studentId: string): set<string> {
    set m | m in media && IsLiveAvatar(media[m], studentId)
  }

  /** Nothing about the student has changed. */
  ghost predicate SameFor(before: Media, after: Media, studentId: string) {
    forall m ::
      && (m in before && before[m].studentId == studentId ==> m in after && after[m] == before[m])
      && (m in after && after[m].studentId == studentId ==> m in before && after[m] == before[m])
  }

  /** A student with live avatars has exactly one primary. */
  ghost predicate OnePrimary(media: Media, studentId: string) {
    var live := LiveAvatars(media, studentId);
    live != {} ==> exists p | p in live :: media[p].isPrimary && forall q | q in live && media[q].isPrimary :: q == p
  }

  /** UPDATE ... WHERE id = row.id */
  function Updated(rows: seq<ItemRow>, row: ItemRow): (r: seq<ItemRow>)
    ensures |r| == |rows|
  {
    seq(|rows|, i requires 0 <= i < |rows| => if rows[i].id == row.id then row else rows[i])
  }

  /** countBatchItemsByStatus */
  function Count(rows: seq<ItemRow>, status: ItemStatus): nat {
    if rows == [] then 0 else Count(rows[..|rows| - 1], status) + if rows[|rows| - 1].status == status then 1 else 0
  }

  ghost predicate DistinctItems(rows: seq<ItemRow>) {
    forall i, j | 0 <= i < j < |rows| :: rows[i].id != rows[j].id
  }

  /** The counters say how many items stand at each status. */
  ghost predicate CountersMatch(batch: BatchRow, rows: seq<ItemRow>) {
    && batch.matched == Count(rows, Matched) && batch.ambiguous == Count(rows, Ambiguous)
    && batch.unmatched == Count(rows, Unmatched)
    && batch.failed == Count(rows, Failed) && batch.imported == Count(rows, Imported)
  }

  /** Every item stands at exactly one status. */
  lemma {:induction false} CountsAddUp(rows: seq<ItemRow>)
    ensures Count(rows, Matched) + Count(rows, Ambiguous) + Count(rows, Unmatched)
      + Count(rows, Skipped) + Count(rows, Failed) + Count(rows, Imported) == |rows|
  {
    if rows != [] {
      CountsAddUp(rows[..|rows| - 1]);
    }
  }

  /** The five counters and the skipped items account for all items of the batch; they sum to its total exactly if all
      items that were analyzed are in the table. */
  lemma CountersSum(batch: BatchRow, rows: seq<ItemRow>)
    requires CountersMatch(batch, rows)
    ensures batch.matched + batch.ambiguous + batch.unmatched + batch.failed + batch.imported + Count(rows, Skipped)
      == batch.total
      <==> |rows| == batch.total
  {
    CountsAddUp(rows);
  }

  /** A batch whose second item failed to be inserted does not add up to its total. */
  lemma PartialBatchDoesNotAddUp()
    ensures var batch, rows := BatchRow(2, 1, 0, 0, 0, 0, true), [ItemRow("a", Matched, None, None)];
      && CountersMatch(batch, rows)
      && batch.matched + batch.ambiguous + batch.unmatched + batch.failed + batch.imported
           + Count(rows, Skipped) != batch.total
  {
    assert [ItemRow("a", Matched, None, None)][..0] == [];
  }

  /** What updating one item does to a count. */
  lemma {:induction false} CountUpdated(rows: seq<ItemRow>, i: nat, row: ItemRow, status: ItemStatus)
    requires DistinctItems(rows) && i < |rows| && rows[i].id == row.id
    ensures Updated(rows, row) == rows[i := row]
    ensures Count(rows[i := row], status) + (if rows[i].status == status then 1 else 0)
      == Count(rows, status) + (if row.status == status then 1 else 0)
  {
    CountReplaced(rows, i, row, status);
  }

  lemma {:induction false} CountReplaced(rows: seq<ItemRow>, i: nat, row: ItemRow, status: ItemStatus)
    requires i < |rows|
    ensures Count(rows[i := row], status) + (if rows[i].status == status then 1 else 0)
      == Count(rows, status) + (if row.status == status then 1 else 0)
  {
    var n := |rows| - 1;
    if i < n {
      CountReplaced(rows[..n], i, row, status);
      assert rows[i := row][..n] == rows[..n][i := row];
    } else {
      assert rows[i := row][..n] == rows[..n];
    }
  }
}

module AvatarServiceModel {
  import opened Text
  import opened Records
  import opened AvatarSpec

  class MediaStore {
    var students: set<string>                  // live students
    var media: Media                           // student_media
    var batches: map<string, BatchRow>         // media_import_batches
    var items: map<string, seq<ItemRow>>       // media_import_batch_items, by batch
    const newId: nat -> string                 // generated media ids
    var nextId: nat
    ghost var faulted: bool                    // some operation has failed

    /** A query, an update, or an operation on object storage or image data: it may fail at any time. */
    method Try() returns (ok: bool)
      modifies this`faulted
      ensures faulted == (old(faulted) || !ok)
    {
      ok := *;
      if !ok {
        faulted := true;
      }
    }

    /** Ids are unique, and those still to be generated are not in use. */
    ghost predicate Valid()
      reads this
    {
      && (forall i, j: nat | i != j :: newId(i) != newId(j))
      && (forall i: nat | i >= nextId :: newId(i) !in media)
      && batches.Keys == items.Keys && (forall b | b in items :: DistinctItems(items[b]))
    }

    /** InsertStudentMedia; the partial unique index allows one live primary avatar for a student. */
    method InsertStudentMedia(id: string, row: MediaRow) returns (ok: bool)
      modifies this`media, this`faulted
      ensures media == if ok then old(media)[id := row] else old(media)
      ensures !faulted ==> !old(faulted)
      ensures !faulted ==>
        ok == (row.studentId in students && id !in old(media)
               && !(row.isPrimary && exists m | m in LiveAvatars(old(media), row.studentId) :: old(media)[m].isPrimary))
    {
      ok := Try();
      ok := ok && row.studentId in students && id !in media
        && !(row.isPrimary && exists m | m in LiveAvatars(media, row.studentId) :: media[m].isPrimary);
      if ok {
        media := media[id := row];
      }
    }

    method SoftDeleteStudentMedia(studentId: string, id: string) returns (ok: bool)
      modifies this`media, this`faulted
      ensures ok ==> id in old(media) && old(media)[id].studentId == studentId && !old(media)[id].deleted
      ensures media == if ok then old(media)[id := old(media)[id].(deleted := true, isPrimary := false)] else old(media)
      ensures !faulted ==> !old(faulted)
      ensures !faulted ==>
        ok == (id in old(media) && old(media)[id].studentId == studentId && !old(media)[id].deleted)
    {
      ok := Try();
      ok := ok && id in media && media[id].studentId == studentId && !media[id].deleted;
      if ok {
        media := media[id := media[id].(deleted := true, isPrimary := false)];
      }
    }

    /** SetPrimaryAvatar: clear, then set, in one transaction. Afterwards the avatar is the student's only primary one;
        if it is not there, or anything fails, nothing has changed. */
    method SetPrimaryAvatar(studentId: string, id: string) returns (ok: bool)
      modifies this`media, this`faulted
      ensures !faulted ==> !old(faulted) && (ok <==> id in LiveAvatars(old(media), studentId))
      ensures ok ==> id in LiveAvatars(old(media), studentId)
      ensures ok ==> forall m | m in LiveAvatars(media, studentId) :: media[m].isPrimary <==> m == id
      ensures media.Keys == old(media).Keys
      ensures forall m | m in media ::
        if ok && IsLiveAvatar(old(media)[m], studentId) then media[m] == old(media)[m].(isPrimary := m == id)
          else media[m] == old(media)[m]
    {
      ok := Try();
      var saved := media;
      media := map m | m in media ::
        if IsLiveAvatar(media[m], studentId) then media[m].(isPrimary := false) else media[m];
      ok := ok && id in LiveAvatars(media, studentId);
      if ok {
        media := media[id := media[id].(isPrimary := true)];
      } else {
        media := saved;
      }
    }

    method CountAvatars(studentId: string) returns (ok: bool, count: nat)
      modifies this`faulted
      ensures ok ==> count == |LiveAvatars(media, studentId)|
      ensures !faulted ==> !old(faulted) && ok
    {
      ok := Try();
      count := |LiveAvatars(media, studentId)|;
    }

    method UpdateItem(batchId: string, row: ItemRow) returns (ok: bool)
      requires batchId in items
      modifies this`items, this`faulted
      ensures items == if ok then old(items)[batchId := Updated(old(items)[batchId], row)] else old(items)
      ensures !faulted ==> !old(faulted) && ok
    {
      ok := Try();
      if ok {
        items := items[batchId := Updated(items[batchId], row)];
      }
    }
  }

  /** Only rows of one student differ. */
  ghost predicate OnlyFor(before: Media, after: Media, studentId: string) {
    && (forall m :: m in before ==> m in after && after[m].studentId == before[m].studentId)
    && (forall s | s != studentId :: SameFor(before, after, s))
  }

  class AvatarService {
    const store: MediaStore

    constructor (store: MediaStore)
      ensures this.store == store
    {
      this.store := store;
    }

    /** DeleteAvatar. An error may come after the row was deleted. */
    method DeleteAvatar(mayManage: string -> bool, studentId: string, id: string) returns (ok: bool)
      modifies store`media, store`faulted
      ensures !store.faulted ==> !old(store.faulted)
      ensures !store.faulted ==>
        ok == (mayManage(studentId) && id in old(store.media) && old(store.media)[id].studentId == studentId
               && !old(store.media)[id].deleted)
      ensures store.media == old(store.media)
        || (id in old(store.media) && old(store.media)[id].studentId == studentId && !old(store.media)[id].deleted
            && store.media == old(store.media)[id := old(store.media)[id].(deleted := true, isPrimary := false)])
      ensures ok ==> id in store.media && store.media[id].deleted
    {
      if !mayManage(studentId) {
        return false;
      }
      ok := store.SoftDeleteStudentMedia(studentId, id);
      if !ok {
        return;
      }
      var objectDeleted := store.Try();
      var thumbnailDeleted := store.Try();
      var audited := store.Try();
      ok := objectDeleted && thumbnailDeleted && audited;
    }

    /** The student's avatars, deleted one by one before the first of the new ones is stored. */
    method DeleteAll(mayManage: string -> bool, studentId: string) returns (ok: bool)
      requires store.Valid()
      modifies store`media, store`faulted
      ensures !store.faulted ==> !old(store.faulted)
      ensures !store.faulted ==> ok == (mayManage(studentId) || LiveAvatars(old(store.media), studentId) == {})
      ensures store.Valid() && store.media.Keys == old(store.media).Keys
      ensures OnlyFor(old(store.media), store.media, studentId)
      ensures LiveAvatars(store.media, studentId) <= LiveAvatars(old(store.media), studentId)
      ensures ok ==> LiveAvatars(store.media, studentId) == {}
    {
      ok := store.Try();
      if !ok {
        return;
      }
      ghost var before := store.media;
      var remaining := LiveAvatars(store.media, studentId);
      while remaining != {}
        invariant store.Valid() && store.media.Keys == before.Keys
        invariant OnlyFor(before, store.media, studentId)
        invariant LiveAvatars(store.media, studentId) <= remaining <= LiveAvatars(before, studentId)
        invariant remaining <= LiveAvatars(store.media, studentId)
        invariant ok && (!store.faulted ==> !old(store.faulted))
        invariant !store.faulted && remaining != LiveAvatars(before, studentId) ==> mayManage(studentId)
        decreases |remaining|
      {
        ghost var previous := store.media;
        var id :| id in remaining;
        ok := DeleteAvatar(mayManage, studentId, id);
        OneDeleted(before, previous, store.media, studentId, id);
        if !ok {
          return;
        }
        remaining := remaining - {id};
      }
    }

    /** storeAvatarBytes. An error may come after the row was inserted, when the download link cannot be signed. */
    method StoreAvatar(studentId: string) returns (avatar: Option<string>, ghost stored: bool)
      requires store.Valid()
      modifies store`media, store`nextId, store`faulted
      ensures !store.faulted ==> !old(store.faulted) && (avatar.Some? <==> studentId in store.students)
      ensures store.Valid() && store.nextId >= old(store.nextId)
      ensures stored ==> studentId in store.students
      ensures !stored ==> store.media == old(store.media)
      ensures stored ==>
        && store.newId(old(store.nextId)) !in old(store.media)
        && store.media == old(store.media)[store.newId(old(store.nextId)) :=
             MediaRow(studentId, AVATAR, LiveAvatars(old(store.media), studentId) == {}, false)]
      ensures avatar.Some? ==> stored && avatar.value == store.newId(old(store.nextId))
    {
      avatar, stored := None, false;
      var found := store.Try();
      if !found || studentId !in store.students {
        return;
      }
      var id := store.newId(store.nextId);
      store.nextId := store.nextId + 1;
      var ok, count := store.CountAvatars(studentId);
      if !ok {
        return;
      }
      var uploaded := store.Try();
      var scaled := store.Try();
      var thumbnailUploaded := store.Try();
      if !uploaded || !scaled || !thumbnailUploaded {
        return;
      }
      ok := store.InsertStudentMedia(id, MediaRow(studentId, AVATAR, count == 0, false));
      if !ok {
        return;
      }
      stored := true;
      var signed := store.Try();
      if signed {
        avatar := Some(id);
      }
    }

    /** One round of the confirm loop, for a requested item that is not imported yet. */
    method ConfirmItem(mayManage: string -> bool, batchId: string, item: ItemRow, studentId: string, strategy: Strategy,
                       replaced: set<string>, ghost k: nat, ghost before: Media, ghost targets: set<string>)
      returns (ok: bool, imported: bool, replaced': set<string>)
      requires store.Valid() && batchId in store.items && k < |store.items[batchId]| && store.items[batchId][k] == item
      requires item.status != Imported && studentId in targets
      requires LoopKeeps(strategy, before, store.media, replaced, targets)
      modifies store`media, store`nextId, store`items, store`faulted
      ensures !store.faulted ==> !old(store.faulted)
      ensures !store.faulted ==>
        ok == (strategy.KeepExisting? || studentId in replaced || mayManage(studentId)
               || LiveAvatars(old(store.media), studentId) == {})
      ensures forall s | s != studentId :: SameFor(old(store.media), store.media, s)
      ensures !store.faulted && ok && strategy.KeepExisting? ==>
        (LiveAvatars(store.media, studentId) != {} <==>
          LiveAvatars(old(store.media), studentId) != {} || studentId in store.students)
      ensures store.Valid() && Grows(old(store.media), store.media)
      ensures LoopKeeps(strategy, before, store.media, replaced', targets) || !ok
      ensures forall s | s !in targets :: SameFor(before, store.media, s)
      ensures Grows(before, store.media)
      ensures ok && strategy.Replace? ==> replaced' == replaced + {studentId}
      ensures batchId in store.items && |store.items[batchId]| == |old(store.items)[batchId]|
      ensures var row := store.items[batchId][k];
        && store.items == old(store.items)[batchId := old(store.items)[batchId][k := row]]
        && ItemConfirmed(before, store.media, map[item.id := studentId], item, row)
        && (ok ==> (imported <==> row.status == Imported))
        && (!store.faulted && ok ==>
              Ended(item, row, studentId,
                    EndStatus(strategy, studentId in store.students, LiveAvatars(old(store.media), studentId) != {})))
    {
      hide LoopKeeps, ItemConfirmed, SameFor, Grows, LiveAvatars, OnlyFor;
      ghost var rows := store.items[batchId];
      assert rows[k := item] == rows && store.items[batchId := rows] == store.items;
      KeepsParts(strategy, before, store.media, replaced, targets);
      ItemLeft(before, store.media, item, studentId);
      GrowsNot(store.media);
      EverySame(store.media);
      ok, imported, replaced' := true, false, replaced;
      if strategy.KeepExisting? {
        var counted, count := store.CountAvatars(studentId);
        if !counted {
          return false, false, replaced;
        }
        if count > 0 {
          ok :=
            UpdateStatus(batchId, item.(status := Skipped, confirmedStudent := Some(studentId)), item, k, before,
                         studentId);
          return;
        }
      } else if studentId !in replaced {
        ghost var previous := store.media;
        ok := DeleteAll(mayManage, studentId);
        DeletedParts(strategy, before, previous, store.media, replaced, targets, studentId);
        DeletedOnly(previous, store.media, studentId);
        ItemLeft(before, store.media, item, studentId);
        if !ok {
          return;
        }
        DeletingStarts(before, previous, store.media, replaced, targets, studentId);
        replaced' := replaced' + {studentId};
      }
      ghost var previous := store.media;
      ok, imported := ImportItem(batchId, item, studentId, strategy, replaced', k, before, targets);
      GrowsOn(old(store.media), previous, store.media);
      SameForOthers(old(store.media), previous, store.media, studentId);
    }

    /** Fetching the uploaded file, storing it, and marking the item. */
    method ImportItem(batchId: string, item: ItemRow, studentId: string, strategy: Strategy,
                      ghost replaced: set<string>, ghost k: nat, ghost before: Media, ghost targets: set<string>)
      returns (ok: bool, imported: bool)
      requires store.Valid() && batchId in store.items && k < |store.items[batchId]| && store.items[batchId][k] == item
      requires item.status != Imported && studentId in targets
      requires LoopKeeps(strategy, before, store.media, replaced, targets)
      requires if strategy.Replace? then studentId in replaced else LiveAvatars(store.media, studentId) == {}
      modifies store`media, store`nextId, store`items, store`faulted
      ensures !store.faulted ==> !old(store.faulted) && ok
      ensures forall s | s != studentId :: SameFor(old(store.media), store.media, s)
      ensures !store.faulted ==>
        if studentId in store.students then LiveAvatars(store.media, studentId) != {}
        else store.media == old(store.media)
      ensures store.Valid() && Grows(old(store.media), store.media)
      ensures LoopKeeps(strategy, before, store.media, replaced, targets)
      ensures forall s | s !in targets :: SameFor(before, store.media, s)
      ensures Grows(before, store.media)
      ensures batchId in store.items && |store.items[batchId]| == |old(store.items)[batchId]|
      ensures var row := store.items[batchId][k];
        && store.items == old(store.items)[batchId := old(store.items)[batchId][k := row]]
        && ItemConfirmed(before, store.media, map[item.id := studentId], item, row)
        && (ok ==> (imported <==> row.status == Imported))
        && (!store.faulted ==>
              Ended(item, row, studentId, if studentId in store.students then Imported else Failed))
    {
      hide LoopKeeps, ItemConfirmed, SameFor, LiveAvatars;
      EverySame(store.media);
      KeepsParts(strategy, before, store.media, replaced, targets);
      ok, imported := true, false;
      var fetched := store.Try();
      if !fetched {
        var noted := UpdateStatus(batchId, item.(status := Failed), item, k, before, studentId);
        return;
      }
      ghost var previous := store.media;
      ghost var id := store.newId(store.nextId);
      var avatar;
      ghost var stored;
      avatar, stored := StoreAvatar(studentId);
      if stored {
        StoringKeeps(strategy, before, previous, replaced, targets, studentId, id);
        OneStored(previous, studentId, id, LiveAvatars(previous, studentId) == {});
      }
      KeepsParts(strategy, before, store.media, replaced, targets);
      if avatar.None? {
        var noted :=
          UpdateStatus(batchId, item.(status := Failed, confirmedStudent := Some(studentId)), item, k, before,
                       studentId);
        return;
      }
      imported := true;
      ok :=
        UpdateStatus(batchId, item.(status := Imported, confirmedStudent := Some(studentId), finalMedia := avatar),
                     item, k, before, studentId);
      var removed := store.Try();
    }

    /** AnalyzeAvatarImport: one item for each file, with the counters of the batch kept along. The batch and its items
        are inserted one by one, so an error may leave a batch with some of its items. */
    method Analyze(batchId: string, files: seq<string>, itemId: nat -> string, isImage: string -> bool,
                   guess: string -> (ItemStatus, Option<string>))
      returns (ok: bool)
      requires store.Valid() && batchId !in store.batches
      requires forall i, j: nat | i != j :: itemId(i) != itemId(j)
      requires forall f :: guess(f).0 in {Matched, Ambiguous, Unmatched}
      modifies store`batches, store`items, store`faulted
      ensures !store.faulted ==>
        && !old(store.faulted) && ok && batchId in store.items && |store.items[batchId]| == |files|
        && forall i | 0 <= i < |files| ::
             store.items[batchId][i] == AnalyzedAs(itemId(i), isImage(files[i]), guess(files[i]))
      ensures store.Valid()
      ensures forall b | b in old(store.batches) ::
        b in store.batches && store.batches[b] == old(store.batches)[b] && store.items[b] == old(store.items)[b]
      ensures forall b | b in store.batches && b !in old(store.batches) ::
        b == batchId && store.batches[b].total == |files| && !store.batches[b].completed && |store.items[b]| <= |files|
      ensures ok ==>
        && batchId in store.batches && |store.items[batchId]| == |files|
        && CountersMatch(store.batches[batchId], store.items[batchId])
        && store.batches[batchId].imported == 0 && Count(store.items[batchId], Skipped) == 0
    {
      hide Count;
      var batch := BatchRow(|files|, 0, 0, 0, 0, 0, false);
      var rows: seq<ItemRow> := [];
      NoneCounted(|files|);
      for i := 0 to |files|
        invariant store.batches == old(store.batches) && store.items == old(store.items)
        invariant |rows| == i && forall j | 0 <= j < i :: rows[j].id == itemId(j)
        invariant batch.total == |files| && !batch.completed && CountersMatch(batch, rows) && batch.imported == 0
        invariant Count(rows, Skipped) == 0
        invariant !store.faulted ==>
          !old(store.faulted)
          && forall j | 0 <= j < i :: rows[j] == AnalyzedAs(itemId(j), isImage(files[j]), guess(files[j]))
      {
        var row: ItemRow;
        batch, row := AnalyzeFile(batch, itemId(i), isImage(files[i]), guess(files[i]), rows);
        rows := rows + [row];
      }
      ok := InsertBatch(batchId, batch, rows);
      hide CountersMatch;
      var answered := store.Try();
      ok := ok && answered;
    }

    /** One file: read, checked, uploaded and matched. */
    method AnalyzeFile(batch: BatchRow, id: string, isImage: bool, guessed: (ItemStatus, Option<string>),
                       ghost rows: seq<ItemRow>)
      returns (batch': BatchRow, row: ItemRow)
      modifies store`faulted
      ensures !store.faulted ==> !old(store.faulted) && row == AnalyzedAs(id, isImage, guessed)
      requires guessed.0 in {Matched, Ambiguous, Unmatched} && CountersMatch(batch, rows)
      ensures row.id == id && CountersMatch(batch', rows + [row])
      ensures batch'.total == batch.total && batch'.completed == batch.completed && batch'.imported == batch.imported
      ensures Count(rows + [row], Skipped) == Count(rows, Skipped)
    {
      var uploaded := false;
      if isImage {
        uploaded := store.Try();
      }
      if !uploaded {
        row := ItemRow(id, Failed, None, None);
        batch' := batch.(failed := batch.failed + 1);
      } else if guessed.0 == Matched {
        row := ItemRow(id, Matched, guessed.1, None);
        batch' := batch.(matched := batch.matched + 1);
      } else if guessed.0 == Ambiguous {
        row := ItemRow(id, Ambiguous, None, None);
        batch' := batch.(ambiguous := batch.ambiguous + 1);
      } else {
        row := ItemRow(id, Unmatched, None, None);
        batch' := batch.(unmatched := batch.unmatched + 1);
      }
      assert (rows + [row])[..|rows|] == rows;
    }

    /** InsertMediaImportBatch and InsertMediaImportBatchItems, row by row. */
    method InsertBatch(batchId: string, batch: BatchRow, rows: seq<ItemRow>) returns (ok: bool)
      requires store.Valid() && batchId !in store.batches && DistinctItems(rows)
      modifies store`batches, store`items, store`faulted
      ensures !store.faulted ==> !old(store.faulted) && ok
      ensures store.Valid()
      ensures (store.batches == old(store.batches) && store.items == old(store.items))
        || (store.batches == old(store.batches)[batchId := batch]
            && exists n: nat | n <= |rows| ::
                 store.items == old(store.items)[batchId := rows[..n]] && (ok ==> n == |rows|))
      ensures ok ==>
        store.batches == old(store.batches)[batchId := batch] && store.items == old(store.items)[batchId := rows]
    {
      ok := store.Try();
      if !ok {
        return;
      }
      store.batches := store.batches[batchId := batch];
      store.items := store.items[batchId := []];
      assert rows[..0] == [];
      for i := 0 to |rows|
        invariant ok && store.batches == old(store.batches)[batchId := batch]
        invariant !store.faulted ==> !old(store.faulted)
        invariant store.items == old(store.items)[batchId := rows[..i]]
      {
        assert rows[..i + 1] == rows[..i] + [rows[i]];
        ok := store.Try();
        if !ok {
          return;
        }
        store.items := store.items[batchId := store.items[batchId] + [rows[i]]];
      }
      assert rows[..|rows|] == rows;
    }

    /** ConfirmAvatarImport, for a caller who may import for the students `mayImport` accepts. */
    method Confirm(mayImport: string -> bool, mayManage: string -> bool, batchId: string,
                   request: seq<(string, string)>, strategyText: string)
      returns (ok: bool, imported: nat, ghost requested: map<string, string>)
      requires store.Valid()
      modifies store`media, store`nextId, store`items, store`batches, store`faulted
      ensures store.Valid()
      ensures requested == map[] || batchId in old(store.items)
      ensures !store.faulted ==>
        && !old(store.faulted)
        && (requested == map[] <==> !RequestAccepted(mayImport, old(store.batches), batchId, request, strategyText))
        && (requested != map[] ==>
              && (forall i :: i in requested <==> exists j | 0 <= j < |request| :: request[j].0 == i)
              && ok == MayDelete(ParseStrategy(strategyText).value, mayManage, old(store.media), requested,
                                 old(store.items)[batchId], |old(store.items)[batchId]|))
        && (requested == map[] ==> !ok)
      ensures forall s | requested == map[] || !Touched(requested, old(store.items)[batchId], s) ::
        SameFor(old(store.media), store.media, s)
      ensures forall i, s | i in requested && s == requested[i] :: (i, s) in request
      ensures store.items.Keys == old(store.items).Keys
      ensures forall b | b in store.items && b != batchId :: store.items[b] == old(store.items)[b]
      ensures batchId in store.items ==>
        ItemsConfirmed(old(store.media), store.media, requested, old(store.items)[batchId], store.items[batchId])
      ensures ok ==>
        && batchId in store.items && batchId in old(store.batches)
        && Settled(ParseStrategy(strategyText), old(store.media), store.media, requested, old(store.items)[batchId])
        && store.batches.Keys == old(store.batches).Keys
        && store.batches[batchId].completed && store.batches[batchId].total == old(store.batches)[batchId].total
        && CountersMatch(store.batches[batchId], store.items[batchId])
        && Count(store.items[batchId], Imported) == Count(old(store.items)[batchId], Imported) + imported
      ensures !store.faulted && ok ==>
        EndedTo(ParseStrategy(strategyText).value, old(store.media), store.students, requested,
                old(store.items)[batchId], store.items[batchId], |old(store.items)[batchId]|)
    {
      hide ItemsConfirmed, Settled, Count, SameFor, Grows, EndedTo, MayDelete, PairAccepted, CountersMatch,
        ParseStrategy;
      ok, imported, requested := false, 0, map[];
      ghost var before, was := store.media, store.items;
      NothingConfirmed(before, requested, was, batchId);
      var strategy := ParseStrategy(strategyText);
      var read := store.Try();
      if !read || request == [] || strategy.None? || batchId !in store.batches {
        return;
      }
      var accepted, itemMap := ReadRequest(mayImport, request);
      if !accepted {
        return;
      }
      assert request[0].0 in itemMap;
      requested := itemMap;
      NothingConfirmed(before, requested, was, batchId);
      ok, imported := ConfirmItems(mayManage, batchId, itemMap, strategy.value);
      if !ok {
        return;
      }
      ok := Complete(batchId);
    }

    /** The counters of the batch after the loop, the answer and the audit row. */
    method Complete(batchId: string) returns (ok: bool)
      requires store.Valid() && batchId in store.batches && batchId in store.items
      modifies store`batches, store`faulted
      ensures store.Valid() && store.batches.Keys == old(store.batches).Keys
      ensures !store.faulted ==> !old(store.faulted) && ok
      ensures ok ==>
        && store.batches[batchId].completed && store.batches[batchId].total == old(store.batches)[batchId].total
        && CountersMatch(store.batches[batchId], store.items[batchId])
    {
      hide Count;
      var rows := store.items[batchId];
      var updated := store.Try();
      var answered := store.Try();
      var audited := store.Try();
      if updated {
        var batch := BatchRow(store.batches[batchId].total, Count(rows, Matched), Count(rows, Ambiguous),
                              Count(rows, Unmatched), Count(rows, Failed), Count(rows, Imported), true);
        store.batches := store.batches[batchId := batch];
      }
      ok := updated && answered && audited;
    }

    /** The loop that checks the confirmed pairs and collects them; a later pair replaces an earlier one. */
    method ReadRequest(mayImport: string -> bool, request: seq<(string, string)>)
      returns (accepted: bool, itemMap: map<string, string>)
      ensures accepted <==> forall j | 0 <= j < |request| :: PairAccepted(mayImport, request[j])
      ensures accepted ==> forall i :: i in itemMap <==> exists j | 0 <= j < |request| :: request[j].0 == i
      ensures accepted ==> forall j | 0 <= j < |request| :: request[j].0 in itemMap
      ensures forall i, s | i in itemMap && s == itemMap[i] :: (i, s) in request
    {
      accepted, itemMap := true, map[];
      for i := 0 to |request|
        invariant forall k, s | k in itemMap && s == itemMap[k] :: (k, s) in request
        invariant forall j | 0 <= j < i :: PairAccepted(mayImport, request[j]) && request[j].0 in itemMap
        invariant forall k | k in itemMap :: exists j | 0 <= j < i :: request[j].0 == k
      {
        if TrimSpace(request[i].0) == "" || TrimSpace(request[i].1) == "" || !mayImport(request[i].1) {
          return false, itemMap;
        }
        itemMap := itemMap[request[i].0 := request[i].1];
      }
    }

    /** The confirm loop over the items of the batch. */
    method ConfirmItems(mayManage: string -> bool, batchId: string, itemMap: map<string, string>, strategy: Strategy)
      returns (ok: bool, imported: nat)
      requires store.Valid() && batchId in store.items
      modifies store`media, store`nextId, store`items, store`faulted
      ensures !store.faulted ==> !old(store.faulted)
      ensures !store.faulted ==>
        ok == MayDelete(strategy, mayManage, old(store.media), itemMap, old(store.items)[batchId],
                        |old(store.items)[batchId]|)
      ensures store.Valid() && store.items.Keys == old(store.items).Keys
      ensures !store.faulted && ok ==>
        EndedTo(strategy, old(store.media), store.students, itemMap, old(store.items)[batchId], store.items[batchId],
                |old(store.items)[batchId]|)
      ensures forall b | b in store.items && b != batchId :: store.items[b] == old(store.items)[b]
      ensures forall s | !Touched(itemMap, old(store.items)[batchId], s) :: SameFor(old(store.media), store.media, s)
      ensures ItemsConfirmed(old(store.media), store.media, itemMap, old(store.items)[batchId], store.items[batchId])
      ensures ok ==> Settled(Some(strategy), old(store.media), store.media, itemMap, old(store.items)[batchId])
      ensures ok ==> Count(store.items[batchId], Imported) == Count(old(store.items)[batchId], Imported) + imported
    {
      hide LoopKeeps, ItemConfirmed, SameFor, Grows, Count, ItemsConfirmed, Settled, LiveAvatars, EndedTo, Ended,
        EndStatus, MayDelete, LoopState, TouchedStudents, Touched;
      ghost var before, was := store.media, store.items;
      var rows := store.items[batchId];
      var replaced: set<string> := {};
      ok, imported := true, 0;
      ghost var targets := TouchedStudents(itemMap, rows);
      LoopStarts(strategy, mayManage, before, store.students, itemMap, rows, !store.faulted);
      for k := 0 to |rows|
        invariant ok && store.Valid() && store.items.Keys == was.Keys && (!store.faulted ==> !old(store.faulted))
        invariant forall b | b in store.items && b != batchId :: store.items[b] == was[b]
        invariant LoopState(strategy, mayManage, before, store.media, store.students, itemMap, rows,
                            store.items[batchId], k, replaced, imported, !store.faulted)
      {
        ghost var now, list, faultFree := store.media, store.items[batchId], !store.faulted;
        LoopStateParts(strategy, mayManage, before, now, store.students, itemMap, rows, list, k, replaced, imported,
                       faultFree);
        if Processed(itemMap, rows[k]) {
          var wasImported, replaced';
          ok, wasImported, replaced' :=
            ConfirmItem(mayManage, batchId, rows[k], itemMap[rows[k].id], strategy, replaced, k, before, targets);
          LoopNext(strategy, mayManage, before, now, store.media, store.students, itemMap, rows, list, k, replaced,
                   imported, faultFree, store.items[batchId][k], ok, wasImported, replaced', !store.faulted);
          if !ok {
            return;
          }
          replaced := replaced';
          if wasImported {
            imported := imported + 1;
          }
        }
      }
      LoopSettles(strategy, mayManage, before, store.media, store.students, itemMap, rows, store.items[batchId],
                  replaced, imported, !store.faulted);
    }

    /** Writing an item's new status, which may fail. */
    method UpdateStatus(batchId: string, row: ItemRow, item: ItemRow, ghost k: nat, ghost before: Media,
                        ghost studentId: string)
      returns (ok: bool)
      requires store.Valid() && batchId in store.items && k < |store.items[batchId]| && store.items[batchId][k] == item
      requires row.id == item.id && item.status != Imported && row.status in {Skipped, Failed, Imported}
      requires row.status == Imported ==> Linked(before, store.media, row) && row.confirmedStudent == Some(studentId)
      modifies store`items, store`faulted
      ensures !store.faulted ==> !old(store.faulted) && ok
      ensures store.Valid() && batchId in store.items && |store.items[batchId]| == |old(store.items)[batchId]|
      ensures store.items[batchId][k] == (if ok then row else item)
      ensures store.items == old(store.items)[batchId := old(store.items)[batchId][k := store.items[batchId][k]]]
      ensures ItemConfirmed(before, store.media, map[item.id := studentId], item, store.items[batchId][k])
    {
      hide Linked, Count;
      ghost var rows := store.items[batchId];
      assert rows[k := item] == rows && store.items[batchId := rows] == store.items;
      CountUpdated(rows, k, row, Imported);
      ok := store.UpdateItem(batchId, row);
    }
  }

  /** The item a file becomes if nothing fails: failed if it is not a readable image, and as guessed otherwise; only a
      match is already confirmed for its student. */
  function AnalyzedAs(id: string, isImage: bool, guessed: (ItemStatus, Option<string>)): ItemRow {
    if !isImage then ItemRow(id, Failed, None, None)
    else ItemRow(id, guessed.0, if guessed.0 == Matched then guessed.1 else None, None)
  }

  lemma NoneCounted(n: nat)
    ensures CountersMatch(BatchRow(n, 0, 0, 0, 0, 0, false), []) && Count([], Skipped) == 0
  {
  }

  lemma OneDeleted(before: Media, previous: Media, after: Media, studentId: string, id: string)
    requires previous.Keys == before.Keys && OnlyFor(before, previous, studentId)
    requires after == previous
      || (id in previous && previous[id].studentId == studentId
          && after == previous[id := previous[id].(deleted := true, isPrimary := false)])
    ensures after.Keys == before.Keys && OnlyFor(before, after, studentId)
    ensures LiveAvatars(after, studentId) <= LiveAvatars(previous, studentId)
    ensures id in after && after[id].deleted ==> id !in LiveAvatars(after, studentId)
  {
    forall s | s != studentId
      ensures SameFor(before, after, s)
    {
      assert SameFor(before, previous, s);
    }
  }

  // ----- what the confirm loop keeps ----------------------------------------------------

  datatype Strategy = Replace | KeepExisting

  /** Rows are never removed and never change hands. */
  ghost predicate Grows(before: Media, after: Media) {
    forall m | m in before :: m in after && after[m].studentId == before[m].studentId
  }

  /** The student's live avatars are exactly the rows added since, and one of them is primary. */
  ghost predicate Renewed(before: Media, now: Media, studentId: string) {
    && LiveAvatars(now, studentId) == (set m | m in now && m !in before && now[m].studentId == studentId)
    && OnePrimary(now, studentId)
  }

  /** The student is as before, or had no avatar and has got one, a primary one. */
  ghost predicate Kept(before: Media, now: Media, studentId: string) {
    || SameFor(before, now, studentId)
    || (LiveAvatars(before, studentId) == {}
        && exists m | m in now && m !in before ::
             LiveAvatars(now, studentId) == {m} && now[m].isPrimary && SameFor(before, now - {m}, studentId))
  }

  /** With replace, the students in `done` have their new avatars only and the others are untouched; with keep, each
      requested student is kept and the others are untouched. */
  ghost predicate LoopKeeps(strategy: Strategy, before: Media, now: Media, done: set<string>, targets: set<string>) {
    && Grows(before, now) && done <= targets
    && (forall s | s !in targets :: SameFor(before, now, s))
    && (forall s ::
          if strategy.Replace? then (if s in done then Renewed(before, now, s) else SameFor(before, now, s))
            else Kept(before, now, s))
  }

  lemma DeletingStarts(before: Media, now: Media, after: Media, done: set<string>, targets: set<string>,
                       studentId: string)
    requires LoopKeeps(Replace, before, now, done, targets) && studentId in targets && studentId !in done
    requires OnlyFor(now, after, studentId) && after.Keys == now.Keys && LiveAvatars(after, studentId) == {}
    ensures LoopKeeps(Replace, before, after, done + {studentId}, targets)
  {
    forall s
      ensures if s in done + {studentId} then Renewed(before, after, s) else SameFor(before, after, s)
    {
      if s != studentId {
        assert SameFor(now, after, s);
        SameLive(now, after, s);
      } else {
        assert SameFor(before, now, s);
        assert (set m | m in after && m !in before && after[m].studentId == s) == {};
      }
    }
  }

  lemma SameLive(before: Media, after: Media, s: string)
    requires SameFor(before, after, s)
    ensures LiveAvatars(after, s) == LiveAvatars(before, s)
    ensures forall m | m in LiveAvatars(before, s) :: after[m] == before[m]
  {
  }

  lemma EverySame(now: Media)
    ensures forall s :: SameFor(now, now, s)
  {
  }

  /** A new avatar makes a difference to its student only. */
  lemma OneStored(now: Media, studentId: string, id: string, primary: bool)
    requires id !in now
    ensures var after := now[id := MediaRow(studentId, AVATAR, primary, false)];
      LiveAvatars(after, studentId) != {} && forall s | s != studentId :: SameFor(now, after, s)
  {
    var after := now[id := MediaRow(studentId, AVATAR, primary, false)];
    assert id in LiveAvatars(after, studentId);
  }

  lemma DeletedOnly(now: Media, after: Media, studentId: string)
    requires OnlyFor(now, after, studentId)
    ensures forall s | s != studentId :: SameFor(now, after, s)
  {
  }

  lemma SameForOthers(before: Media, now: Media, after: Media, studentId: string)
    requires forall s | s != studentId :: SameFor(before, now, s) && SameFor(now, after, s)
    ensures forall s | s != studentId :: SameFor(before, after, s)
  {
    hide SameFor;
    forall s | s != studentId
      ensures SameFor(before, after, s)
    {
      SameForAll(before, now, after, s);
    }
  }

  lemma SameForAll(before: Media, now: Media, after: Media, s: string)
    requires SameFor(before, now, s) && SameFor(now, after, s)
    ensures SameFor(before, after, s)
  {
  }

  /** One new avatar for a student who may get it. */
  lemma StoringKeeps(strategy: Strategy, before: Media, now: Media, done: set<string>, targets: set<string>,
                     studentId: string, id: string)
    requires LoopKeeps(strategy, before, now, done, targets) && studentId in targets && id !in now
    requires if strategy.Replace? then studentId in done else LiveAvatars(now, studentId) == {}
    ensures LoopKeeps(strategy, before,
                      now[id := MediaRow(studentId, AVATAR, LiveAvatars(now, studentId) == {}, false)], done, targets)
  {
    var row := MediaRow(studentId, AVATAR, LiveAvatars(now, studentId) == {}, false);
    var after := now[id := row];
    assert forall s | s != studentId :: SameFor(now, after, s);
    forall s
      ensures if strategy.Replace? then (if s in done then Renewed(before, after, s) else SameFor(before, after, s))
        else Kept(before, after, s)
    {
      if s != studentId {
        OthersKeep(strategy, before, now, after, done, s);
      } else if strategy.Replace? {
        StoredRenewed(before, now, s, id);
      } else {
        StoredKept(before, now, s, id);
      }
    }
  }

  lemma OthersKeep(strategy: Strategy, before: Media, now: Media, after: Media, done: set<string>, s: string)
    requires SameFor(now, after, s) && Grows(before, now)
    requires if strategy.Replace? then (if s in done then Renewed(before, now, s) else SameFor(before, now, s))
      else Kept(before, now, s)
    ensures if strategy.Replace? then (if s in done then Renewed(before, after, s) else SameFor(before, after, s))
      else Kept(before, after, s)
  {
    SameLive(now, after, s);
    if strategy.KeepExisting? && !SameFor(before, now, s) {
      var m :| m in now && m !in before && LiveAvatars(now, s) == {m} && now[m].isPrimary
        && SameFor(before, now - {m}, s);
      assert m in LiveAvatars(now, s);
      assert SameFor(before, after - {m}, s);
    }
  }

  lemma StoredRenewed(before: Media, now: Media, s: string, id: string)
    requires Renewed(before, now, s) && Grows(before, now) && id !in now
    ensures Renewed(before, now[id := MediaRow(s, AVATAR, LiveAvatars(now, s) == {}, false)], s)
  {
    var live := LiveAvatars(now, s);
    var after := now[id := MediaRow(s, AVATAR, live == {}, false)];
    assert LiveAvatars(after, s) == live + {id};
    if live != {} {
      var p :| p in live && now[p].isPrimary && forall q | q in live && now[q].isPrimary :: q == p;
      assert p in LiveAvatars(after, s) && after[p].isPrimary;
    }
  }

  lemma StoredKept(before: Media, now: Media, s: string, id: string)
    requires Kept(before, now, s) && Grows(before, now) && id !in now && LiveAvatars(now, s) == {}
    ensures Kept(before, now[id := MediaRow(s, AVATAR, true, false)], s)
  {
    var after := now[id := MediaRow(s, AVATAR, true, false)];
    assert SameFor(before, now, s);
    SameLive(before, now, s);
    assert LiveAvatars(after, s) == {id};
    assert after - {id} == now;
  }

  /** An imported item names a media row added since, of the student it was confirmed for. */
  ghost predicate Linked(before: Media, now: Media, row: ItemRow) {
    && row.confirmedStudent.Some? && row.finalMedia.Some?
    && row.finalMedia.value in now && row.finalMedia.value !in before
    && now[row.finalMedia.value].studentId == row.confirmedStudent.value
  }

  lemma KeepsParts(strategy: Strategy, before: Media, now: Media, done: set<string>, targets: set<string>)
    requires LoopKeeps(strategy, before, now, done, targets)
    ensures Grows(before, now) && forall s | s !in targets :: SameFor(before, now, s)
  {
  }

  lemma GrowsNot(now: Media)
    ensures Grows(now, now)
  {
  }

  lemma GrowsOn(before: Media, now: Media, after: Media)
    requires Grows(before, now) && Grows(now, after)
    ensures Grows(before, after)
  {
  }

  lemma DeletedParts(strategy: Strategy, before: Media, now: Media, after: Media, done: set<string>,
                     targets: set<string>, studentId: string)
    requires LoopKeeps(strategy, before, now, done, targets) && studentId in targets && OnlyFor(now, after, studentId)
    ensures Grows(now, after) && Grows(before, after) && forall s | s !in targets :: SameFor(before, after, s)
  {
    forall s | s !in targets
      ensures SameFor(before, after, s)
    {
      SameForAll(before, now, after, s);
    }
  }

  lemma ItemLeft(before: Media, now: Media, item: ItemRow, studentId: string)
    requires item.status != Imported
    ensures ItemConfirmed(before, now, map[item.id := studentId], item, item)
  {
  }

  /** A confirmed pair names an item and a student the caller may import for. */
  predicate PairAccepted(mayImport: string -> bool, pair: (string, string)) {
    TrimSpace(pair.0) != "" && TrimSpace(pair.1) != "" && mayImport(pair.1)
  }

  /** The request gets past the checks before the loop. */
  ghost predicate RequestAccepted(mayImport: string -> bool, batches: map<string, BatchRow>, batchId: string,
                                  request: seq<(string, string)>, strategyText: string)
  {
    && request != [] && ParseStrategy(strategyText).Some? && batchId in batches
    && forall j | 0 <= j < |request| :: PairAccepted(mayImport, request[j])
  }

  /** Where an item ends if nothing fails: with keep it is skipped if its student has an avatar; a student who is not
      there gets none; anyone else gets the picture. */
  function EndStatus(strategy: Strategy, isStudent: bool, hadAvatar: bool): ItemStatus {
    if strategy.KeepExisting? && hadAvatar then Skipped else if isStudent then Imported else Failed
  }

  /** The item as it ends, confirmed for its student. */
  ghost predicate Ended(was: ItemRow, row: ItemRow, studentId: string, status: ItemStatus) {
    && row.id == was.id && row.status == status && row.confirmedStudent == Some(studentId)
    && (status != Imported ==> row.finalMedia == was.finalMedia)
  }

  /** The student had an avatar when the item's turn came: one from before, or one from an earlier item. */
  ghost predicate HadBy(before: Media, students: set<string>, requested: map<string, string>, was: seq<ItemRow>,
                        k: nat, studentId: string)
    requires k <= |was|
  {
    LiveAvatars(before, studentId) != {} || (studentId in students && Touched(requested, was[..k], studentId))
  }

  /** The processed items among the first k have ended as they do if nothing fails. */
  ghost predicate EndedTo(strategy: Strategy, before: Media, students: set<string>, requested: map<string, string>,
                          was: seq<ItemRow>, rows: seq<ItemRow>, k: nat)
  {
    && k <= |was| == |rows|
    && forall j | 0 <= j < k && Processed(requested, was[j]) ::
         var studentId := requested[was[j].id];
         Ended(was[j], rows[j], studentId,
               EndStatus(strategy, studentId in students, HadBy(before, students, requested, was, j, studentId)))
  }

  /** With replace, the old avatars of every student concerned may be deleted. */
  ghost predicate MayDelete(strategy: Strategy, mayManage: string -> bool, before: Media,
                            requested: map<string, string>, was: seq<ItemRow>, k: nat)
  {
    k <= |was| &&
    (strategy.Replace? ==>
       forall j | 0 <= j < k && Processed(requested, was[j]) ::
         mayManage(requested[was[j].id]) || LiveAvatars(before, requested[was[j].id]) == {})
  }

  /** Who has an avatar after the first k items, with keep. */
  ghost predicate HadAll(before: Media, now: Media, students: set<string>, requested: map<string, string>,
                         was: seq<ItemRow>, k: nat)
    requires k <= |was|
  {
    forall s :: LiveAvatars(now, s) != {} <==> HadBy(before, students, requested, was, k, s)
  }

  /** What the loop keeps as long as nothing fails. */
  ghost predicate LoopEnds(strategy: Strategy, mayManage: string -> bool, before: Media, now: Media,
                           students: set<string>, requested: map<string, string>, was: seq<ItemRow>,
                           rows: seq<ItemRow>, k: nat)
  {
    && MayDelete(strategy, mayManage, before, requested, was, k)
    && EndedTo(strategy, before, students, requested, was, rows, k)
    && (strategy.KeepExisting? ==> HadAll(before, now, students, requested, was, k))
  }

  lemma NothingEnded(strategy: Strategy, mayManage: string -> bool, before: Media, students: set<string>,
                     requested: map<string, string>, was: seq<ItemRow>)
    ensures LoopEnds(strategy, mayManage, before, before, students, requested, was, was, 0)
  {
  }

  /** An item that is not processed changes nothing. */
  lemma ItemPassed(strategy: Strategy, mayManage: string -> bool, before: Media, now: Media, students: set<string>,
                   requested: map<string, string>, was: seq<ItemRow>, rows: seq<ItemRow>, k: nat)
    requires k < |was| && !Processed(requested, was[k])
    ensures LoopEnds(strategy, mayManage, before, now, students, requested, was, rows, k) ==>
      LoopEnds(strategy, mayManage, before, now, students, requested, was, rows, k + 1)
  {
    hide Ended, EndStatus, LiveAvatars, Processed;
    forall s
      ensures Touched(requested, was[..k + 1], s) <==> Touched(requested, was[..k], s)
    {
      TouchedByNext(requested, was, k, s);
    }
  }

  lemma TouchedByNext(requested: map<string, string>, was: seq<ItemRow>, k: nat, s: string)
    requires k < |was|
    ensures Touched(requested, was[..k + 1], s) <==>
      Touched(requested, was[..k], s) || (Processed(requested, was[k]) && requested[was[k].id] == s)
  {
    var front, more := was[..k], was[..k + 1];
    if i :| 0 <= i < k + 1 && Processed(requested, more[i]) && requested[more[i].id] == s {
      assert i < k ==> front[i] == more[i];
    }
    if i :| 0 <= i < k && Processed(requested, front[i]) && requested[front[i].id] == s {
      assert more[i] == front[i];
    }
    assert more[k] == was[k];
  }

  /** Whether the old avatars of the item's student may go, in the state before and in the present one. */
  lemma DeletionDecided(strategy: Strategy, mayManage: string -> bool, before: Media, now: Media, done: set<string>,
                        targets: set<string>, requested: map<string, string>, was: seq<ItemRow>, k: nat, ok: bool)
    requires LoopKeeps(strategy, before, now, done, targets) && k < |was| && Processed(requested, was[k])
    requires MayDelete(strategy, mayManage, before, requested, was, k)
    requires strategy.Replace? ==> done == TouchedStudents(requested, was[..k])
    requires ok ==
      (strategy.KeepExisting? || requested[was[k].id] in done || mayManage(requested[was[k].id])
        || LiveAvatars(now, requested[was[k].id]) == {})
    ensures if ok then MayDelete(strategy, mayManage, before, requested, was, k + 1)
            else !MayDelete(strategy, mayManage, before, requested, was, |was|)
  {
    hide Renewed, Kept;
    var s := requested[was[k].id];
    if strategy.Replace? {
      if s in done {
        var i :| 0 <= i < k && Processed(requested, was[..k][i]) && requested[was[..k][i].id] == s;
        assert was[..k][i] == was[i];
      } else {
        SameLive(before, now, s);
      }
    }
  }

  /** One more item of a loop in which nothing has failed. */
  lemma ItemEnds(strategy: Strategy, mayManage: string -> bool, before: Media, now: Media, after: Media,
                 students: set<string>, done: set<string>, targets: set<string>, requested: map<string, string>,
                 was: seq<ItemRow>, rows: seq<ItemRow>, k: nat, row: ItemRow, ok: bool)
    requires LoopEnds(strategy, mayManage, before, now, students, requested, was, rows, k)
    requires LoopKeeps(strategy, before, now, done, targets) && k < |was| && Processed(requested, was[k])
    requires strategy.Replace? ==> done == TouchedStudents(requested, was[..k])
    requires ok ==
      (strategy.KeepExisting? || requested[was[k].id] in done || mayManage(requested[was[k].id])
        || LiveAvatars(now, requested[was[k].id]) == {})
    requires var s := requested[was[k].id];
      && (ok ==> Ended(was[k], row, s, EndStatus(strategy, s in students, LiveAvatars(now, s) != {})))
      && (ok && strategy.KeepExisting? ==>
            (LiveAvatars(after, s) != {} <==> LiveAvatars(now, s) != {} || s in students))
      && (forall t | t != s :: SameFor(now, after, t))
    ensures if ok then LoopEnds(strategy, mayManage, before, after, students, requested, was, rows[k := row], k + 1)
            else !MayDelete(strategy, mayManage, before, requested, was, |was|)
  {
    hide MayDelete, EndedTo, HadAll, LoopKeeps, LiveAvatars, Ended, EndStatus, SameFor, Processed, TouchedStudents;
    DeletionDecided(strategy, mayManage, before, now, done, targets, requested, was, k, ok);
    if ok {
      ItemEnded(strategy, before, now, after, students, requested, was, rows, k, row);
    }
  }

  /** An item that is processed ends, and its student has an avatar from then on if there is such a student. */
  lemma ItemEnded(strategy: Strategy, before: Media, now: Media, after: Media, students: set<string>,
                  requested: map<string, string>, was: seq<ItemRow>, rows: seq<ItemRow>, k: nat, row: ItemRow)
    requires k < |was| && Processed(requested, was[k])
    requires EndedTo(strategy, before, students, requested, was, rows, k)
    requires var s := requested[was[k].id];
      && Ended(was[k], row, s, EndStatus(strategy, s in students, LiveAvatars(now, s) != {}))
      && (strategy.KeepExisting? ==> HadAll(before, now, students, requested, was, k))
      && (strategy.KeepExisting? ==>
            (LiveAvatars(after, s) != {} <==> LiveAvatars(now, s) != {} || s in students))
      && (forall t | t != s :: SameFor(now, after, t))
    ensures EndedTo(strategy, before, students, requested, was, rows[k := row], k + 1)
    ensures strategy.KeepExisting? ==> HadAll(before, after, students, requested, was, k + 1)
  {
    hide Ended, LiveAvatars, SameFor, Touched;
    var s := requested[was[k].id];
    if strategy.KeepExisting? {
      forall t
        ensures LiveAvatars(after, t) != {} <==> HadBy(before, students, requested, was, k + 1, t)
      {
        TouchedByNext(requested, was, k, t);
        if t != s {
          SameLive(now, after, t);
        }
      }
    }
  }

  /** What confirming may do to an item: nothing, unless it was requested and is not imported yet. */
  ghost predicate ItemConfirmed(before: Media, now: Media, requested: map<string, string>, was: ItemRow, row: ItemRow) {
    && row.id == was.id
    && (was.id !in requested || was.status == Imported ==> row == was)
    && (row.status == Imported && was.status != Imported ==>
        Linked(before, now, row) && row.confirmedStudent == Some(requested[was.id]))
    && (row != was ==> row.status in {Skipped, Failed, Imported})
  }

  /** The request names the item, and it is not imported yet. */
  predicate Processed(requested: map<string, string>, item: ItemRow) {
    item.id in requested && item.status != Imported
  }

  /** replaceStrategy, already in lower case and trimmed; "" stands for replace. */
  function ParseStrategy(text: string): Option<Strategy> {
    if text == "" || text == "replace" then Some(Replace) else if text == "keep" then Some(KeepExisting) else None
  }

  /** Every item is as confirming may leave it. */
  ghost predicate ItemsConfirmed(before: Media, now: Media, requested: map<string, string>, was: seq<ItemRow>,
                                 rows: seq<ItemRow>) {
    |rows| == |was| && forall i | 0 <= i < |was| :: ItemConfirmed(before, now, requested, was[i], rows[i])
  }

  lemma NothingConfirmed(before: Media, requested: map<string, string>, items: map<string, seq<ItemRow>>,
                         batchId: string)
    ensures batchId in items ==> ItemsConfirmed(before, before, requested, items[batchId], items[batchId])
    ensures forall s :: SameFor(before, before, s)
  {
  }

  /** The students the call has dealt with. */
  ghost predicate Touched(requested: map<string, string>, was: seq<ItemRow>, studentId: string) {
    exists i | 0 <= i < |was| :: Processed(requested, was[i]) && requested[was[i].id] == studentId
  }

  ghost function TouchedStudents(requested: map<string, string>, was: seq<ItemRow>): set<string> {
    set i | 0 <= i < |was| && Processed(requested, was[i]) :: requested[was[i].id]
  }

  lemma TouchedIn(requested: map<string, string>, was: seq<ItemRow>)
    ensures forall s :: s in TouchedStudents(requested, was) <==> Touched(requested, was, s)
    ensures forall i | 0 <= i < |was| && Processed(requested, was[i]) ::
      requested[was[i].id] in TouchedStudents(requested, was)
  {
  }

  lemma NobodyTouched(requested: map<string, string>, was: seq<ItemRow>)
    ensures TouchedStudents(requested, was[..0]) == {}
  {
  }

  lemma TouchedNext(requested: map<string, string>, was: seq<ItemRow>, k: nat)
    requires k < |was|
    ensures TouchedStudents(requested, was[..k + 1]) ==
      TouchedStudents(requested, was[..k]) + if Processed(requested, was[k]) then {requested[was[k].id]} else {}
    ensures Processed(requested, was[k]) ==> requested[was[k].id] in TouchedStudents(requested, was)
  {
    var front, more := was[..k], was[..k + 1];
    forall s
      ensures s in TouchedStudents(requested, more) <==>
        s in TouchedStudents(requested, front) || (Processed(requested, was[k]) && s == requested[was[k].id])
    {
      if i :| 0 <= i < k + 1 && Processed(requested, more[i]) && requested[more[i].id] == s {
        assert i < k ==> front[i] == more[i];
      }
      if i :| 0 <= i < k && Processed(requested, front[i]) && requested[front[i].id] == s {
        assert more[i] == front[i];
      }
      assert more[k] == was[k];
    }
  }

  /** What a confirmation that returned no error leaves of the avatars. With replace, a student with a processed item
      has exactly the avatars stored by this call, one of them primary if there are any. With keep, a student who had
      avatars is unchanged and the others have gained at most one. No other student is touched. */
  ghost predicate Settled(strategy: Option<Strategy>, before: Media, now: Media, requested: map<string, string>,
                          was: seq<ItemRow>) {
    match strategy
    case None => false
    case Some(Replace) => forall s ::
      if Touched(requested, was, s) then Renewed(before, now, s) else SameFor(before, now, s)
    case Some(KeepExisting) => forall s ::
      if Touched(requested, was, s) then Kept(before, now, s) else SameFor(before, now, s)
  }

  /** What the confirm loop keeps. */
  ghost predicate LoopState(strategy: Strategy, mayManage: string -> bool, before: Media, now: Media,
                            students: set<string>, requested: map<string, string>, was: seq<ItemRow>,
                            rows: seq<ItemRow>, k: nat, replaced: set<string>, imported: nat, faultFree: bool)
  {
    && k <= |was| == |rows| && (forall j | k <= j < |rows| :: rows[j] == was[j])
    && LoopKeeps(strategy, before, now, replaced, TouchedStudents(requested, was))
    && ItemsConfirmed(before, now, requested, was, rows)
    && (strategy.Replace? ==> replaced == TouchedStudents(requested, was[..k]))
    && Count(rows, Imported) == Count(was, Imported) + imported
    && (faultFree ==> LoopEnds(strategy, mayManage, before, now, students, requested, was, rows, k))
  }

  lemma LoopStarts(strategy: Strategy, mayManage: string -> bool, before: Media, students: set<string>,
                   requested: map<string, string>, was: seq<ItemRow>, faultFree: bool)
    ensures LoopState(strategy, mayManage, before, before, students, requested, was, was, 0, {}, 0, faultFree)
  {
    NothingEnded(strategy, mayManage, before, students, requested, was);
    NobodyTouched(requested, was);
    hide Count, LiveAvatars, TouchedStudents;
  }

  /** What the next item may rely on; an item that is not processed changes nothing. */
  lemma LoopStateParts(strategy: Strategy, mayManage: string -> bool, before: Media, now: Media, students: set<string>,
                       requested: map<string, string>, was: seq<ItemRow>, rows: seq<ItemRow>, k: nat,
                       replaced: set<string>, imported: nat, faultFree: bool)
    requires k < |was|
    requires LoopState(strategy, mayManage, before, now, students, requested, was, rows, k, replaced, imported,
                       faultFree)
    ensures |rows| == |was| && rows[k] == was[k]
    ensures LoopKeeps(strategy, before, now, replaced, TouchedStudents(requested, was))
    ensures Processed(requested, was[k]) ==> requested[was[k].id] in TouchedStudents(requested, was)
    ensures !Processed(requested, was[k]) ==>
      LoopState(strategy, mayManage, before, now, students, requested, was, rows, k + 1, replaced, imported, faultFree)
  {
    hide LoopKeeps, ItemsConfirmed, LoopEnds, Count, Processed;
    TouchedNext(requested, was, k);
    if !Processed(requested, was[k]) {
      ItemPassed(strategy, mayManage, before, now, students, requested, was, rows, k);
    }
  }

  /** One round of the loop, for an item that is processed. */
  lemma LoopNext(strategy: Strategy, mayManage: string -> bool, before: Media, now: Media, after: Media,
                 students: set<string>, requested: map<string, string>, was: seq<ItemRow>, rows: seq<ItemRow>, k: nat,
                 replaced: set<string>, imported: nat, wasFaultFree: bool, row: ItemRow, ok: bool, wasImported: bool,
                 replaced': set<string>, faultFree: bool)
    requires k < |was| && Processed(requested, was[k]) && (faultFree ==> wasFaultFree)
    requires LoopState(strategy, mayManage, before, now, students, requested, was, rows, k, replaced, imported,
                       wasFaultFree)
    requires var s, targets := requested[was[k].id], TouchedStudents(requested, was);
      && Grows(now, after) && (forall t | t != s :: SameFor(now, after, t))
      && (LoopKeeps(strategy, before, after, replaced', targets) || !ok)
      && (forall t | t !in targets :: SameFor(before, after, t))
      && (ok && strategy.Replace? ==> replaced' == replaced + {s})
      && ItemConfirmed(before, after, map[was[k].id := s], was[k], row)
      && (ok ==> (wasImported <==> row.status == Imported))
    requires faultFree ==>
      var s := requested[was[k].id];
      && ok == (strategy.KeepExisting? || s in replaced || mayManage(s) || LiveAvatars(now, s) == {})
      && (ok ==> Ended(was[k], row, s, EndStatus(strategy, s in students, LiveAvatars(now, s) != {})))
      && (ok && strategy.KeepExisting? ==>
            (LiveAvatars(after, s) != {} <==> LiveAvatars(now, s) != {} || s in students))
    ensures |rows| == |was| && ItemsConfirmed(before, after, requested, was, rows[k := row])
    ensures forall t | !Touched(requested, was, t) :: SameFor(before, after, t)
    ensures ok ==>
      LoopState(strategy, mayManage, before, after, students, requested, was, rows[k := row], k + 1, replaced',
                imported + (if wasImported then 1 else 0), faultFree)
    ensures !ok && faultFree ==> !MayDelete(strategy, mayManage, before, requested, was, |was|)
  {
    hide LoopKeeps, ItemsConfirmed, ItemConfirmed, LoopEnds, Count, MayDelete, LiveAvatars, Ended, EndStatus, SameFor,
      Grows, Touched, TouchedStudents;
    TouchedNext(requested, was, k);
    TouchedIn(requested, was);
    ItemsStep(before, now, after, requested, was, rows, k, row);
    CountReplaced(rows, k, row, Imported);
    if faultFree {
      ItemEnds(strategy, mayManage, before, now, after, students, replaced, TouchedStudents(requested, was), requested,
               was, rows, k, row, ok);
    }
  }

  /** What the loop has come to at its end. */
  lemma LoopSettles(strategy: Strategy, mayManage: string -> bool, before: Media, now: Media, students: set<string>,
                    requested: map<string, string>, was: seq<ItemRow>, rows: seq<ItemRow>, replaced: set<string>,
                    imported: nat, faultFree: bool)
    requires LoopState(strategy, mayManage, before, now, students, requested, was, rows, |was|, replaced, imported,
                       faultFree)
    ensures Settled(Some(strategy), before, now, requested, was)
    ensures ItemsConfirmed(before, now, requested, was, rows)
    ensures forall s | !Touched(requested, was, s) :: SameFor(before, now, s)
    ensures Count(rows, Imported) == Count(was, Imported) + imported
    ensures faultFree ==>
      && MayDelete(strategy, mayManage, before, requested, was, |was|)
      && EndedTo(strategy, before, students, requested, was, rows, |was|)
  {
    TouchedIn(requested, was);
    assert was[..|was|] == was;
    hide Renewed, SameFor, Kept, TouchedStudents, ItemsConfirmed, Count, HadAll, MayDelete, EndedTo, Touched;
  }

  /** One more item. */
  lemma ItemsStep(before: Media, now: Media, after: Media, requested: map<string, string>, was: seq<ItemRow>,
                  rows: seq<ItemRow>, k: nat, row: ItemRow)
    requires ItemsConfirmed(before, now, requested, was, rows) && Grows(now, after)
    requires k < |was| && Processed(requested, was[k]) && rows[k] == was[k]
    requires ItemConfirmed(before, after, map[was[k].id := requested[was[k].id]], was[k], row)
    ensures ItemsConfirmed(before, after, requested, was, rows[k := row])
  {
    forall i | 0 <= i < |was|
      ensures ItemConfirmed(before, after, requested, was[i], rows[k := row][i])
    {
      assert ItemConfirmed(before, now, requested, was[i], rows[i]);
    }
  }
}
