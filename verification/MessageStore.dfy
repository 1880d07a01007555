/** Messages and their attachment rows (internal/repository/db/message.go): one
    transaction writes both; a later query reads the paths back. */
module MessageStore {
  import opened Wrappers
  import opened Collections
  import opened Text

  datatype AttachmentRow = AttachmentRow(message: int, path: string, createdAt: int)

  type AttachmentRows = map<int, AttachmentRow>

  const MAX_PATH: nat := 512

  predicate ValidPath(path: string) {
    !Blank(path) && |path| <= MAX_PATH
  }

  /** Which statement of the transaction the database fails; attachment is the
      index of a failing attachment insert. */
  datatype Faults = Faults(begin: bool, message: bool, attachment: Option<nat>, commit: bool)

  ghost predicate AllSaved(attachments: seq<string>, fault: Option<nat>) {
    forall i :: 0 <= i < |attachments| ==> ValidPath(attachments[i]) && fault != Some(i)
  }

  /** When the transaction commits: no statement fails and every path is good. */
  ghost predicate Commits(attachments: seq<string>, sticker: bool, faults: Faults) {
    !faults.begin && !faults.message && !faults.commit && (sticker || AllSaved(attachments, faults.attachment))
  }

  /** The rows of one transaction: consecutive keys, and one creation time, since
      CURRENT_TIMESTAMP is the start of the transaction. */
  ghost function WithRows(rows: AttachmentRows, first: int, message: int, paths: seq<string>, now: int): AttachmentRows
  {
    if paths == [] then rows
    else
      var last := |paths| - 1;
      WithRows(rows, first, message, paths[..last], now)[first + last := AttachmentRow(message, paths[last], now)]
  }

  class DBMessageStore {
    var messages: set<int>
    var rows: AttachmentRows
    var nextMessage: int
    var nextRow: int

    ghost predicate Valid()
      reads this
    {
      && (forall m :: m in messages ==> m < nextMessage)
      && (forall k :: k in rows ==> k < nextRow && rows[k].message in messages)
    }

    constructor ()
      ensures Valid() && messages == {} && rows == map[] && nextMessage == 1
    {
      messages, rows, nextMessage, nextRow := {}, map[], 1, 1;
    }

    /** All or nothing: whichever statement fails, neither table has changed. */
    method CreateMessage(attachments: seq<string>, sticker: bool, now: int, faults: Faults) returns (id: Option<int>)
      requires Valid()
      modifies this
      ensures Valid()
      ensures id.Some? <==>
                && !faults.begin && !faults.message && !faults.commit
                && (sticker || forall i :: 0 <= i < |attachments| ==>
                      !Blank(attachments[i]) && |attachments[i]| <= 512 && faults.attachment != Some(i))
      ensures id.Some? <==> Commits(attachments, sticker, faults)
      ensures id.None? ==> messages == old(messages) && rows == old(rows)
      ensures nextMessage >= old(nextMessage)
      ensures id.Some? ==> id.value == old(nextMessage) && id.value !in old(messages)
      ensures id.Some? ==> messages == old(messages) + {id.value}
      ensures id.Some? ==> rows == WithRows(old(rows), old(nextRow), id.value, if sticker then [] else attachments, now)
    {
      if faults.begin || faults.message {
        return None;
      }
      var message := nextMessage;
      nextMessage := message + 1;
      var tx := rows;
      if |attachments| > 0 && !sticker {
        var saved := SaveMessageAttachmentsTx(tx, message, attachments, now, faults.attachment);
        if saved.None? {
          return None;
        }
        tx := saved.value;
        RowsAdded(rows, old(nextRow), message, attachments, now);
      }
      if faults.commit {
        return None;
      }
      messages, rows := messages + {message}, tx;
      return Some(message);
    }

    /** Writes to the transaction's copy tx; only the identity sequence is beyond it. */
    method SaveMessageAttachmentsTx(tx: AttachmentRows, message: int, attachments: seq<string>, now: int,
                                    fault: Option<nat>)
      returns (saved: Option<AttachmentRows>)
      modifies this`nextRow
      ensures saved.Some? <==>
                forall i :: 0 <= i < |attachments| ==>
                  !Blank(attachments[i]) && |attachments[i]| <= 512 && fault != Some(i)
      ensures saved.Some? <==> AllSaved(attachments, fault)
      ensures saved.Some? ==> saved.value == WithRows(tx, old(nextRow), message, attachments, now)
      ensures saved.Some? ==> nextRow == old(nextRow) + |attachments|
      ensures nextRow >= old(nextRow)
    {
      var next := tx;
      for i := 0 to |attachments|
        invariant nextRow == old(nextRow) + i
        invariant next == WithRows(tx, old(nextRow), message, attachments[..i], now)
        invariant AllSaved(attachments[..i], fault)
      {
        assert attachments[..i + 1][..i] == attachments[..i];
        if Blank(attachments[i]) || |attachments[i]| > MAX_PATH || fault == Some(i) {
          return None;
        }
        next, nextRow := next[nextRow := AttachmentRow(message, attachments[i], now)], nextRow + 1;
      }
      assert attachments[..|attachments|] == attachments;
      return Some(next);
    }
  }

  // ---------------------------------------------------------- reading them back

  /** An answer of GetMessageAttachments, by the keys of its rows: every row of
      the message once, in any order that ascends in created_at. */
  ghost predicate IsAnswer(rows: AttachmentRows, message: int, keys: seq<int>) {
    && NoDup(keys)
    && (forall k :: k in keys <==> k in rows && rows[k].message == message)
    && forall i, j :: 0 <= i < j < |keys| && keys[i] in rows && keys[j] in rows ==>
         rows[keys[i]].createdAt <= rows[keys[j]].createdAt
  }

  function PathOf(rows: AttachmentRows, k: int): string {
    if k in rows then rows[k].path else ""
  }

  function PathsOf(rows: AttachmentRows, keys: seq<int>): seq<string> {
    seq(|keys|, i requires 0 <= i < |keys| => PathOf(rows, keys[i]))
  }

  /** The keys the transaction drew, in order. */
  function Drawn(first: int, n: nat): seq<int> {
    seq(n, i => first + i)
  }

  /** No row belongs to the new message yet, and its rows get new keys. */
  ghost predicate IsNew(rows: AttachmentRows, first: int, message: int) {
    forall k :: k in rows ==> k < first && rows[k].message != message
  }

  lemma {:induction false} RowsAdded(rows: AttachmentRows, first: int, message: int, paths: seq<string>, now: int)
    ensures var after := WithRows(rows, first, message, paths, now);
            && (forall k :: k in after <==> k in rows || first <= k < first + |paths|)
            && (forall k :: k in after ==>
                  after[k] == if first <= k < first + |paths| then AttachmentRow(message, paths[k - first], now)
                              else rows[k])
  {
    if paths != [] {
      RowsAdded(rows, first, message, paths[..|paths| - 1], now);
    }
  }

  lemma DrawnIsAnswer(rows: AttachmentRows, first: int, message: int, paths: seq<string>, now: int)
    requires IsNew(rows, first, message)
    ensures var after := WithRows(rows, first, message, paths, now);
            && (forall k :: k in after && after[k].message == message <==> first <= k < first + |paths|)
            && IsAnswer(after, message, Drawn(first, |paths|)) && PathsOf(after, Drawn(first, |paths|)) == paths
  {
    var keys := Drawn(first, |paths|);
    RowsAdded(rows, first, message, paths, now);
    forall k: int
      ensures k in keys <==> first <= k < first + |paths|
    {
      if first <= k < first + |paths| {
        assert keys[k - first] == k;
      }
    }
  }

  lemma {:induction false} NoDupMultiset(keys: seq<int>)
    requires NoDup(keys)
    ensures multiset(keys) == multiset(Elems(keys))
  {
    if keys == [] {
    } else {
      var tail := keys[1..];
      NoDupMultiset(tail);
      assert keys == [keys[0]] + tail;
      assert keys[0] !in Elems(tail);
      assert Elems(keys) == {keys[0]} + Elems(tail);
    }
  }

  lemma TakenOut<T>(s: seq<T>, j: nat)
    requires j < |s|
    ensures multiset(s) == multiset{s[j]} + multiset(s[..j] + s[j + 1..])
  {
    assert s == s[..j] + [s[j]] + s[j + 1..];
  }

  lemma Cancel<T>(x: T, a: multiset<T>, b: multiset<T>)
    requires multiset{x} + a == multiset{x} + b
    ensures a == b
  {
    assert a == (multiset{x} + a) - multiset{x};
    assert b == (multiset{x} + b) - multiset{x};
  }

  lemma PathTakenOut(rows: AttachmentRows, keys: seq<int>, j: nat)
    requires j < |keys|
    ensures multiset(PathsOf(rows, keys)) ==
              multiset{PathOf(rows, keys[j])} + multiset(PathsOf(rows, keys[..j] + keys[j + 1..]))
  {
    TakenOut(PathsOf(rows, keys), j);
    assert PathsOf(rows, keys[..j] + keys[j + 1..]) == PathsOf(rows, keys)[..j] + PathsOf(rows, keys)[j + 1..];
  }

  lemma {:induction false} PathsPermute(rows: AttachmentRows, a: seq<int>, b: seq<int>)
    requires multiset(a) == multiset(b)
    ensures multiset(PathsOf(rows, a)) == multiset(PathsOf(rows, b))
  {
    if a == [] {
      assert |multiset(b)| == 0;
    } else {
      assert a[0] in multiset(b);
      var j :| 0 <= j < |b| && b[j] == a[0];
      var p, q := a[..0] + a[1..], b[..j] + b[j + 1..];
      TakenOut(a, 0);
      TakenOut(b, j);
      Cancel(a[0], multiset(p), multiset(q));
      PathsPermute(rows, p, q);
      PathTakenOut(rows, a, 0);
      PathTakenOut(rows, b, j);
    }
  }

  /** The attachments of the message are these paths: some answer of the query
      gives them in this order, and by Permuted every answer gives the same ones. */
  ghost predicate Attached(rows: AttachmentRows, message: int, paths: seq<string>) {
    exists keys :: IsAnswer(rows, message, keys) && PathsOf(rows, keys) == paths
  }

  lemma Permuted(rows: AttachmentRows, message: int, paths: seq<string>, keys: seq<int>)
    requires Attached(rows, message, paths) && IsAnswer(rows, message, keys)
    ensures multiset(PathsOf(rows, keys)) == multiset(paths)
  {
    var some :| IsAnswer(rows, message, some) && PathsOf(rows, some) == paths;
    NoDupMultiset(keys);
    NoDupMultiset(some);
    forall k: int
      ensures k in Elems(keys) <==> k in Elems(some)
    {
      assert k in keys <==> k in rows && rows[k].message == message;
      assert k in some <==> k in rows && rows[k].message == message;
    }
    assert Elems(keys) == Elems(some);
    PathsPermute(rows, keys, some);
  }

  /** Every answer gives back the paths that were saved, each as often as it was. */
  lemma ReadsBack(rows: AttachmentRows, first: int, message: int, paths: seq<string>, now: int, keys: seq<int>)
    requires IsNew(rows, first, message) && IsAnswer(WithRows(rows, first, message, paths, now), message, keys)
    ensures multiset(PathsOf(WithRows(rows, first, message, paths, now), keys)) == multiset(paths)
  {
    DrawnIsAnswer(rows, first, message, paths, now);
    Permuted(WithRows(rows, first, message, paths, now), message, paths, keys);
  }

  /** Two rows of the transaction returned the other way round. */
  function Swapped(first: int, n: nat, i: nat, j: nat): seq<int>
    requires i < j < n
  {
    Drawn(first, n)[i := first + j][j := first + i]
  }

  lemma SwappedKeys(first: int, n: nat, i: nat, j: nat)
    requires i < j < n
    ensures NoDup(Swapped(first, n, i, j))
    ensures forall k :: k in Swapped(first, n, i, j) <==> first <= k < first + n
  {
    var keys := Swapped(first, n, i, j);
    assert forall x :: 0 <= x < n ==> keys[x] == if x == i then first + j else if x == j then first + i else first + x;
    forall k | first <= k < first + n
      ensures k in keys
    {
      assert keys[if k == first + i then j else if k == first + j then i else k - first] == k;
    }
  }

  /** The database may as well return any two of the rows the other way round. */
  lemma OtherOrder(rows: AttachmentRows, first: int, message: int, paths: seq<string>, now: int, i: nat, j: nat)
    requires IsNew(rows, first, message) && i < j < |paths|
    ensures IsAnswer(WithRows(rows, first, message, paths, now), message, Swapped(first, |paths|, i, j))
    ensures PathsOf(WithRows(rows, first, message, paths, now), Swapped(first, |paths|, i, j))[i] == paths[j]
  {
    RowsAdded(rows, first, message, paths, now);
    SwappedKeys(first, |paths|, i, j);
  }

  predicate AllAlike(paths: seq<string>) {
    forall i, j :: 0 <= i < j < |paths| ==> paths[i] == paths[j]
  }

  /** But not in the order they were saved: that is certain only when there is
      nothing to tell the paths apart. */
  lemma OrderKeptIff(rows: AttachmentRows, first: int, message: int, paths: seq<string>, now: int)
    requires IsNew(rows, first, message)
    ensures (forall keys :: IsAnswer(WithRows(rows, first, message, paths, now), message, keys) ==>
                              PathsOf(WithRows(rows, first, message, paths, now), keys) == paths)
            <==> AllAlike(paths)
  {
    var after := WithRows(rows, first, message, paths, now);
    if AllAlike(paths) {
      forall keys | IsAnswer(after, message, keys)
        ensures PathsOf(after, keys) == paths
      {
        ReadsBack(rows, first, message, paths, now, keys);
        AlikeOnce(PathsOf(after, keys), paths);
      }
    } else {
      var i, j :| 0 <= i < j < |paths| && paths[i] != paths[j];
      OtherOrder(rows, first, message, paths, now, i, j);
    }
  }

  lemma AlikeOnce(a: seq<string>, b: seq<string>)
    requires multiset(a) == multiset(b) && AllAlike(b)
    ensures a == b
  {
    assert |multiset(a)| == |a| && |multiset(b)| == |b|;
    forall i | 0 <= i < |a|
      ensures a[i] == b[i]
    {
      assert a[i] in multiset(b);
      var j :| 0 <= j < |b| && b[j] == a[i];
    }
  }

  lemma AnswerKept(rows: AttachmentRows, first: int, message: int, paths: seq<string>, now: int, other: int,
                   keys: seq<int>)
    requires IsNew(rows, first, message) && other != message && IsAnswer(rows, other, keys)
    ensures IsAnswer(WithRows(rows, first, message, paths, now), other, keys)
    ensures PathsOf(WithRows(rows, first, message, paths, now), keys) == PathsOf(rows, keys)
  {
    var after := WithRows(rows, first, message, paths, now);
    RowsAdded(rows, first, message, paths, now);
    forall k: int
      ensures k in rows && rows[k].message == other <==> k in after && after[k].message == other
      ensures k in rows ==> k in after && after[k] == rows[k]
    {
    }
    forall i | 0 <= i < |keys|
      ensures keys[i] in rows && keys[i] in after && after[keys[i]] == rows[keys[i]]
    {
      var k := keys[i];
      assert k in keys <==> k in rows && rows[k].message == other;
    }
  }

  /** A committed transaction attaches its paths to its message, and leaves the
      attachments of every other message as they were. */
  lemma AttachedGrows(rows: AttachmentRows, first: int, message: int, paths: seq<string>, now: int, other: int,
                      had: seq<string>)
    requires IsNew(rows, first, message)
    ensures Attached(WithRows(rows, first, message, paths, now), message, paths)
    ensures other != message && Attached(rows, other, had) ==>
              Attached(WithRows(rows, first, message, paths, now), other, had)
  {
    DrawnIsAnswer(rows, first, message, paths, now);
    if other != message && Attached(rows, other, had) {
      var keys :| IsAnswer(rows, other, keys) && PathsOf(rows, keys) == had;
      AnswerKept(rows, first, message, paths, now, other, keys);
    }
  }
}
