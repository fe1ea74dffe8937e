/** The transfer loop of upload_file, cmdline/cmdline_afp.c: a local file is written over a file on the volume. */
module Upload {
  import opened Bytes

  const PUT_BUFSIZE := 102400

  /** A turn of the loop: how many bytes the read gives, whether the read or the write fails, and how many bytes the
      write takes. */
  datatype Turn = Turn(want: nat, fails: bool, takes: nat)

  /** Whether the session may create files here; it may still write one that is there. Any other failure ends the upload,
      and one without an answer may have made the file. */
  datatype Create = PERMITTED | DENIED | REFUSED | UNANSWERED(makes: bool)

  datatype Open = OPENED | FAILED | TIMED_OUT

  /** How the create, the open and the unlink of a file that does not open go, the turns of the loop, and whether the
      close and the truncation succeed. */
  datatype Answers = Answers(create: Create, open: Open, unlinks: bool, turns: seq<Turn>, closes: bool,
                             truncates: bool)

  /** The path on the volume, and the file that is there. */
  class Remote {
    var content: Option<seq<byte>>

    constructor (content: Option<seq<byte>>)
      ensures this.content == content
    {
      this.content := content;
    }

    /** afp_sl_creat: an empty file, where there is none. Only an answer tells that it was made. */
    method Make(create: Create) returns (made: bool)
      modifies this
      ensures made <==> create == PERMITTED && old(content).None?
      ensures content == if made || (create == UNANSWERED(true) && old(content).None?) then Some([]) else old(content)
    {
      made := create == PERMITTED && content.None?;
      if made || (create == UNANSWERED(true) && content.None?) {
        content := Some([]);
      }
    }

    /** open_created_file: a file this upload made goes again when its open fails, unless the open has no answer. A
        path without a file does not open. */
    method OpenCreated(created: bool, open: Open, unlinks: bool) returns (ok: bool)
      requires created ==> content.Some?
      modifies this
      ensures ok <==> open == OPENED && old(content).Some?
      ensures content == if !ok && created && open != TIMED_OUT && unlinks then None else old(content)
    {
      ok := open == OPENED && content.Some?;
      if !ok && created && open != TIMED_OUT && unlinks {
        content := None;
      }
    }
  }

  /** The bytes an upload writes over: none, where there is no file. */
  function Prior(content: Option<seq<byte>>): seq<byte> {
    if content.Some? then content.value else []
  }

  /** Whether the transfer starts: the file is there or may be made, and it opens. */
  predicate Starts(content: Option<seq<byte>>, answers: Answers) {
    && (answers.create == PERMITTED || answers.create == DENIED) && answers.open == OPENED
    && (content.None? ==> answers.create == PERMITTED)
  }

  /** Whether an upload that does not start leaves an empty file behind. */
  predicate LeavesEmpty(content: Option<seq<byte>>, answers: Answers) {
    && content.None?
    && (answers.create == UNANSWERED(true)
        || (answers.create == PERMITTED
            && (answers.open == TIMED_OUT || (answers.open == FAILED && !answers.unlinks))))
  }

  /** read: between one byte and a buffer full, and nothing at the end. */
  function Amount(local: seq<byte>, at: nat, turns: seq<Turn>): (n: nat)
    requires at <= |local|
    ensures n <= |local| - at && n <= PUT_BUFSIZE && (n == 0 <==> at == |local|)
  {
    var left := |local| - at;
    var most := if left < PUT_BUFSIZE then left else PUT_BUFSIZE;
    if turns == [] || turns[0].want == 0 || turns[0].want > most then most else turns[0].want
  }

  /** A file with the first n bytes of another written over it. */
  function Over(f: seq<byte>, local: seq<byte>, n: nat): seq<byte>
    requires n <= |local|
  {
    Pwrite(f, local[..n], 0)
  }

  lemma WriteOver(f: seq<byte>, local: seq<byte>, at: nat, n: nat)
    requires at + n <= |local|
    ensures Pwrite(Over(f, local, at), local[at..at + n], at) == Over(f, local, at + n)
  {
    assert n == 0 ==> local[at..at + n] == [];
    assert at == 0 ==> local[..at] == [] && local[at..at + n] == local[..at + n];
  }

  lemma WrittenOver(f: seq<byte>, local: seq<byte>)
    ensures f == [] ==> Over(f, local, |local|) == local
    ensures Ftruncate(Over(f, local, |local|), |local|) == local
    ensures Over(f, local, 0) == f
  {
    assert local[..|local|] == local;
  }

  /** From a place on, no read or write fails, and every write takes all it is given. Past the last turn none does. */
  predicate Moves(local: seq<byte>, at: nat, turns: seq<Turn>)
    requires at <= |local|
    decreases |local| - at
  {
    var n := Amount(local, at, turns);
    || n == 0 || turns == []
    || (!turns[0].fails && turns[0].takes >= n && Moves(local, at + n, turns[1..]))
  }

  /** A local file that is read to its end and a server that takes all of it move the whole file. */
  lemma {:induction false} AllMoves(local: seq<byte>, at: nat, turns: seq<Turn>)
    requires at <= |local| && forall i :: 0 <= i < |turns| ==> !turns[i].fails && turns[i].takes >= 102400
    ensures Moves(local, at, turns)
    decreases |local| - at
  {
    var n := Amount(local, at, turns);
    if n > 0 && turns != [] {
      AllMoves(local, at + n, turns[1..]);
    }
  }

  /** upload_file, from the create to the truncation. A failed transfer leaves what it wrote; one that does not start
      leaves the path as it was, or an empty file where there was none. */
  method UploadFile(local: seq<byte>, remote: Remote, answers: Answers) returns (done: bool)
    modifies remote
    ensures done ==> Starts(old(remote.content), answers) && remote.content == Some(local)
    ensures !Starts(old(remote.content), answers) ==>
      remote.content == if LeavesEmpty(old(remote.content), answers) then Some([]) else old(remote.content)
    ensures Starts(old(remote.content), answers) && !done ==>
      exists n :: 0 <= n <= |local| && remote.content == Some(Over(Prior(old(remote.content)), local, n))
    ensures done <==>
      && Starts(old(remote.content), answers) && Moves(local, 0, answers.turns)
      && answers.closes && (old(remote.content).None? || answers.truncates)
  {
    hide Over;
    done := false;
    ghost var prior := Prior(remote.content);
    WrittenOver(prior, local);
    var created := remote.Make(answers.create);
    if answers.create != PERMITTED && answers.create != DENIED {
      return;
    }
    var ok := remote.OpenCreated(created, answers.open, answers.unlinks);
    if !ok {
      return;
    }
    var offset, turns := 0, answers.turns;
    var read := Amount(local, offset, turns);
    while read > 0
      invariant offset <= |local| && remote.content == Some(Over(prior, local, offset))
      invariant read == Amount(local, offset, turns)
      invariant Moves(local, 0, answers.turns) <==> Moves(local, offset, turns)
      decreases |local| - offset
    {
      if turns != [] && turns[0].fails {
        return;
      }
      var takes := if turns != [] && turns[0].takes < read then turns[0].takes else read;
      WriteOver(prior, local, offset, takes);
      remote.content := Some(Pwrite(remote.content.value, local[offset..offset + takes], offset));
      if takes != read {
        return;
      }
      offset := offset + takes;
      turns := if turns == [] then [] else turns[1..];
      read := Amount(local, offset, turns);
    }
    if !answers.closes {
      return;
    }
    if !created {
      if !answers.truncates {
        return;
      }
      remote.content := Some(Ftruncate(remote.content.value, offset));
    }
    done := true;
  }
}
