/**
The files of a session and what an upload makes of them (`handle_upload_common` in
`postlogin.c`): created or opened, perhaps truncated, written from some position on.
*/
module Files {
  import opened Common

  /** A path, as the file system resolves it. */
  type Name = seq<Byte>
  datatype Node = File(content: seq<Byte>) | Dir
  type Tree = map<Name, Node>

  /** `data` written at position `pos` of a file: what it covers is replaced, and a gap in front of
      it reads as zeroes. Writing nothing changes nothing, not even behind the end. */
  function Stored(base: seq<Byte>, pos: nat, data: seq<Byte>): (r: seq<Byte>)
    ensures |r| == if data != [] && pos + |data| > |base| then pos + |data| else |base|
    ensures forall i :: 0 <= i < |r| ==>
      r[i] == if pos <= i < pos + |data| then data[i - pos] else if i < |base| then base[i] else 0
  {
    if data == [] then base
    else
      (if pos <= |base| then base[..pos] else base + Zeros(pos - |base|))
      + data
      + (if pos + |data| <= |base| then base[pos + |data|..] else [])
  }

  /** An upload starts afresh unless it appends or has been given a position; a file that must not
      have been there is empty anyway. */
  predicate Truncates(exclusive: bool, isAppend: bool, offset: nat) {
    !exclusive && !isAppend && offset == 0
  }

  /** Where the bytes go in a file with the content `base`: APPE has moved to its end, and a file
      that must be new has been opened so that all writes go to its end, wherever the session has
      moved to. */
  function Place(base: seq<Byte>, exclusive: bool, isAppend: bool, offset: nat): nat {
    if exclusive || isAppend then |base| else offset
  }

  /** The content of a file after an upload of `data` to it; `before` is what was there. */
  function UploadResult(before: seq<Byte>, exclusive: bool, isAppend: bool, offset: nat, data: seq<Byte>): seq<Byte> {
    var base := if Truncates(exclusive, isAppend, offset) then [] else before;
    Stored(base, Place(base, exclusive, isAppend, offset), data)
  }

  /** The content of the file with this name, and nothing if there is none. */
  function ContentAt(tree: Tree, name: Name): seq<Byte> {
    if name in tree && tree[name].File? then tree[name].content else []
  }

  /** A new file has exactly the bytes that were sent, whatever position was asked for, as has an
      old one that is replaced. */
  lemma UploadReplaces(before: seq<Byte>, isAppend: bool, offset: nat, data: seq<Byte>)
    ensures UploadResult([], true, isAppend, offset, data) == data
    ensures UploadResult(before, false, false, 0, data) == data
  {
  }

  /** `data` stands at position `pos` of a file. */
  predicate StandsAt(content: seq<Byte>, pos: nat, data: seq<Byte>) {
    data == [] || (pos + |data| <= |content| && content[pos..pos + |data|] == data)
  }

  /** A STOR or STOU puts the bytes where REST said if and only if the file need not be new, or REST
      said the beginning, or there are no bytes. */
  lemma RestIsHonoured(before: seq<Byte>, exclusive: bool, offset: nat, data: seq<Byte>)
    requires exclusive ==> before == []
    ensures StandsAt(UploadResult(before, exclusive, false, offset, data), offset, data) <==>
      !exclusive || offset == 0 || data == []
  {
    var r := UploadResult(before, exclusive, false, offset, data);
    if exclusive {
      UploadReplaces(before, false, offset, data);
    } else if data != [] {
      assert r[offset..offset + |data|] == data;
    }
  }

  /** One byte after REST 5, to a file that must be new: it is the first byte of the file. */
  lemma RestIsIgnored(d: Byte)
    ensures UploadResult([], true, false, 5, [d]) == [d] && !StandsAt([d], 5, [d])
  {
    RestIsHonoured([], true, 5, [d]);
  }

  /** A transfer that broke off after `part` can be completed in either way: by APPE, or by REST
      with the length of what is there and STOR. */
  lemma UploadResumes(part: seq<Byte>, rest: seq<Byte>, offset: nat)
    ensures UploadResult(part, false, true, offset, rest) == part + rest
    ensures UploadResult(part, false, false, |part|, rest) == part + rest
  {
  }

  /** Everything that was there before is there, as it was. */
  ghost predicate Keeps(before: Tree, after: Tree) {
    forall n :: n in before ==> n in after && after[n] == before[n]
  }

  /** No file is new or changed, and no directory is new. */
  ghost predicate NoNewFiles(before: Tree, after: Tree) {
    forall n :: n in after && after[n].File? ==> n in before && before[n] == after[n]
  }

  ghost predicate NoNewDirs(before: Tree, after: Tree) {
    forall n :: n in after && after[n].Dir? ==> n in before && before[n].Dir?
  }

  /** The same node with this name, or none. */
  ghost predicate SameAt(before: Tree, after: Tree, n: Name) {
    (n in before <==> n in after) && (n in before ==> after[n] == before[n])
  }

  /** Nothing has changed but what has this name. */
  ghost predicate OnlyAt(before: Tree, after: Tree, name: Name) {
    forall n :: n != name ==> SameAt(before, after, n)
  }

  /** What an upload leaves behind: if it succeeded, the file with what was sent where it was meant
      to be; if it failed, the same with the part that arrived, or by configuration no file at all
      (if it can be removed), whatever was there before; if the session ended on the way, the file
      untouched, or with a part. */
  ghost predicate Left(
      before: Tree, after: Tree, name: Name, content: seq<Byte>, ended: bool, succeeded: bool, deleteFailed: bool)
  {
    var written := before[name := File(content)];
    if ended then after == written || (!succeeded && deleteFailed && after == before - {name})
    else after == written || after == before[name := File(ContentAt(before, name))]
  }

  /** Creating a file changes nothing but its existence. */
  lemma LeftSinceCreation(
      before: Tree, created: Tree, after: Tree, name: Name, content: seq<Byte>,
      ended: bool, succeeded: bool, deleteFailed: bool)
    requires created == before[name := File(ContentAt(before, name))]
    requires Left(created, after, name, content, ended, succeeded, deleteFailed)
    ensures Left(before, after, name, content, ended, succeeded, deleteFailed)
    ensures ContentAt(created, name) == ContentAt(before, name)
  {
    assert created - {name} == before - {name};
    assert created[name := File(content)] == before[name := File(content)];
  }

  /** Nothing has been done yet. */
  lemma LeftUntouched(before: Tree, name: Name, content: seq<Byte>, succeeded: bool, deleteFailed: bool)
    requires name in before && before[name].File?
    ensures Left(before, before, name, content, false, succeeded, deleteFailed)
  {
    assert before[name := File(ContentAt(before, name))] == before;
  }

  lemma LeftAfterWriting(
      before: Tree, name: Name, written: seq<Byte>, ended: bool, succeeded: bool, deleteFailed: bool)
    ensures var after := before[name := File(written)];
      && Left(before, after, name, written, ended, succeeded, deleteFailed)
      && (ended && !succeeded && deleteFailed ==> Left(before, after - {name}, name, written, true, false, true))
  {
    assert before[name := File(written)] - {name} == before - {name};
  }

  lemma NothingStored(base: seq<Byte>, pos: nat)
    ensures Stored(base, pos, []) == base
  {
  }

  /** Only the file itself can change, and if it must be new nothing that was there. */
  lemma LeftKeeps(
      before: Tree, after: Tree, name: Name, content: seq<Byte>, ended: bool, succeeded: bool, deleteFailed: bool)
    requires name !in before && Left(before, after, name, content, ended, succeeded, deleteFailed)
    ensures Keeps(before, after)
  {
  }

  /** The file is all that an upload changes, and it makes no directory. */
  lemma LeftIsFile(
      before: Tree, after: Tree, name: Name, content: seq<Byte>, ended: bool, succeeded: bool, deleteFailed: bool)
    requires Left(before, after, name, content, ended, succeeded, deleteFailed)
    ensures OnlyAt(before, after, name) && NoNewDirs(before, after)
  {
  }

  /** A failed upload can leave no file, whatever was there before, if and only if
      `delete_failed_uploads` is on. */
  lemma FailedUploadCanRemove(before: Tree, name: Name, content: seq<Byte>, deleteFailed: bool)
    ensures (exists after :: Left(before, after, name, content, true, false, deleteFailed) && name !in after)
            <==> deleteFailed
  {
    if deleteFailed {
      var after := before - {name};
      assert Left(before, after, name, content, true, false, deleteFailed) && name !in after;
    }
  }

  /** After an upload that succeeded the file is there; where its bytes stand depends on whether it
      had to be new. */
  lemma UploadStands(
      before: Tree, after: Tree, name: Name, exclusive: bool, offset: nat, data: seq<Byte>, deleteFailed: bool)
    requires exclusive ==> name !in before
    requires Left(before, after, name, UploadResult(ContentAt(before, name), exclusive, false, offset, data),
                  true, true, deleteFailed)
    ensures StandsAt(ContentAt(after, name), offset, data) <==> !exclusive || offset == 0 || data == []
  {
    RestIsHonoured(ContentAt(before, name), exclusive, offset, data);
  }
}
