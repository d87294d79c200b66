/** The opening book: book moves keyed by the position part of a FEN record. A book file
    is a sequence of blocks, each introduced by "pos", whose first line is a FEN record
    and whose other lines are "move count" pairs. A Java exception while loading is a
    book that is not created. */
module OpeningBooks {
  import opened Wrappers
  import opened JavaInts
  import opened JavaStrings

  /** `BookMove`: a move in UCI notation and how often it was played. */
  datatype BookMove = BookMove(moveString: string, numTimesPlayed: Int32)

  // ---------------------------------------------------------------- position keys

  /** `Arrays.copyOf(fields, n)`: the first `n` fields, padded with `null`. */
  function CopyOf(fields: seq<string>, n: nat): (r: seq<Option<string>>)
    ensures |r| == n
    ensures forall i :: 0 <= i < n ==> r[i] == if i < |fields| then Some(fields[i]) else None
  {
    if n == 0 then []
    else CopyOf(fields, n - 1) + [if n - 1 < |fields| then Some(fields[n - 1]) else None]
  }

  /** How `String.join` writes each element: `null` as the text "null". */
  function Texts(fields: seq<Option<string>>): (r: seq<string>)
    ensures |r| == |fields|
    ensures forall i :: 0 <= i < |fields| ==> r[i] == if fields[i].Some? then fields[i].value else "null"
  {
    if fields == [] then []
    else Texts(fields[..|fields| - 1]) + [if fields[|fields| - 1].Some? then fields[|fields| - 1].value else "null"]
  }

  /** `removeMoveCountersFromFEN`: the first four space-separated fields of the record
      (placement, side to move, castling rights, en-passant square) joined by single
      spaces, the missing ones written "null". */
  function RemoveMoveCounters(fen: string): string {
    Join(" ", Texts(CopyOf(Split(fen, " "), 4)))
  }

  /** A field that a space-separated split produced. */
  predicate SpaceFree(fields: seq<string>) {
    forall i :: 0 <= i < |fields| ==> ' ' !in fields[i]
  }

  /** A string in which `indexOf` finds no character `c` does not contain it. */
  lemma NotFound(p: string, c: char)
    requires IndexOf(p, [c]).None?
    ensures c !in p
  {
    forall k | 0 <= k < |p|
      ensures p[k] != c
    {
      assert p[k..k + 1] == [p[k]];
      assert OccursAt(p, [p[k]], k);
    }
  }

  /** The fields of a split on spaces contain no space. */
  lemma SplitFieldsSpaceFree(fen: string)
    ensures SpaceFree(Split(fen, " "))
  {
    var f := Split(fen, " ");
    if IndexOf(fen, " ").Some? {
      PiecesAreFree(fen, " ");
      var ps := Pieces(fen, " ");
      forall i | 0 <= i < |f|
        ensures ' ' !in f[i]
      {
        assert f[i] == ps[i] && ps[i] in ps;
        NotFound(f[i], ' ');
      }
    } else {
      NotFound(fen, ' ');
    }
  }

  /** The key of a record written as four or more space-free fields, the fourth one
      non-empty, is the first four fields. */
  lemma KeyOfFields(fields: seq<string>)
    requires |fields| >= 4 && SpaceFree(fields) && fields[3] != ""
    ensures RemoveMoveCounters(Join(" ", fields)) == Join(" ", fields[..4])
  {
    var f := Split(Join(" ", fields), " ");
    assert f == DropTrailingEmpty(fields) by {
      SplitOfJoin(fields, ' ');
    }
    assert |f| >= 4 && f[..4] == fields[..4] by {
      KeptPrefix(fields, 3);
    }
    calc {
      RemoveMoveCounters(Join(" ", fields));
      Join(" ", Texts(CopyOf(f, 4)));
      { FirstFourFields(f); }
      Join(" ", fields[..4]);
    }
  }

  /** Dropping the empty pieces at the end keeps every piece up to a non-empty one. */
  lemma KeptPrefix(ps: seq<string>, n: nat)
    requires n < |ps| && ps[n] != ""
    ensures |DropTrailingEmpty(ps)| > n && DropTrailingEmpty(ps)[..n + 1] == ps[..n + 1]
  {
  }

  /** Copying four fields of a longer list and writing them keeps the first four. */
  lemma FirstFourFields(f: seq<string>)
    requires |f| >= 4
    ensures Texts(CopyOf(f, 4)) == f[..4]
  {
  }

  /** A record with four fields or more keeps its first four; one with fewer gets "null"
      for each missing field. */
  lemma KeyFields(fen: string)
    ensures var f := Split(fen, " ");
      RemoveMoveCounters(fen) == Join(" ", if |f| >= 4 then f[..4] else f + seq(4 - |f|, _ => "null"))
  {
    var f := Split(fen, " ");
    if |f| >= 4 {
      assert Texts(CopyOf(f, 4)) == f[..4];
    } else {
      assert Texts(CopyOf(f, 4)) == f + seq(4 - |f|, _ => "null");
    }
  }

  /** An empty record, as the block before the first "pos" of a book file has, gets the
      key " null null null". */
  lemma EmptyRecordKey()
    ensures RemoveMoveCounters("") == " null null null"
  {
    assert Split("", " ") == [""] by {
      assert IndexOf("", " ").None?;
    }
    var t := Texts(CopyOf([""], 4));
    assert t == ["", "null", "null", "null"];
    JoinOfNulls();
  }

  lemma JoinOfNulls()
    ensures Join(" ", ["", "null", "null", "null"]) == " null null null"
  {
    var t: seq<string> := ["", "null", "null", "null"];
    assert Join(" ", ["null"]) == "null";
    assert Join(" ", ["null", "null"]) == "null null" by {
      JoinCons(" ", "null", ["null"]);
      assert ["null"] + ["null"] == ["null", "null"];
    }
    assert Join(" ", ["null", "null", "null"]) == "null null null" by {
      JoinCons(" ", "null", ["null", "null"]);
      assert ["null"] + ["null", "null"] == ["null", "null", "null"];
    }
    JoinCons(" ", "", ["null", "null", "null"]);
    assert [""] + ["null", "null", "null"] == t;
  }

  /** Removing the counters twice removes nothing more, for a record whose first four
      fields are present and the fourth non-empty. */
  lemma KeyIdempotent(fen: string)
    requires |Split(fen, " ")| >= 4 && Split(fen, " ")[3] != ""
    ensures RemoveMoveCounters(RemoveMoveCounters(fen)) == RemoveMoveCounters(fen)
  {
    var f := Split(fen, " ");
    SplitFieldsSpaceFree(fen);
    KeyFields(fen);
    KeyOfFields(f[..4]);
    assert f[..4][..4] == f[..4];
  }

  /** Two records that differ only after their fourth field, such as in the halfmove
      clock and the fullmove number, get the same key. */
  lemma CountersIgnored(fields: seq<string>, counters1: seq<string>, counters2: seq<string>)
    requires |fields| == 4 && SpaceFree(fields) && fields[3] != ""
    requires SpaceFree(counters1) && SpaceFree(counters2)
    ensures RemoveMoveCounters(Join(" ", fields + counters1)) == RemoveMoveCounters(Join(" ", fields + counters2))
  {
    KeyOfFields(fields + counters1);
    KeyOfFields(fields + counters2);
    assert (fields + counters1)[..4] == fields == (fields + counters2)[..4];
  }

  // ---------------------------------------------------------------- book files

  /** A "move count" line: the text before the first space and the parsed count; a line
      without a second field or with a count that is not an `int` throws. */
  function BookMoveOf(line: string): Option<BookMove> {
    var parts := Split(line, " ");
    if |parts| < 2 then None
    else
      match ParseInt(parts[1])
      case None => None
      case Some(n) => Some(BookMove(parts[0], n))
  }

  /** All the values, or `None` as soon as one is missing. */
  function AllSome<T>(opts: seq<Option<T>>): (r: Option<seq<T>>)
    ensures r.Some? <==> forall i :: 0 <= i < |opts| ==> opts[i].Some?
    ensures r.Some? ==> |r.value| == |opts| && forall i :: 0 <= i < |opts| ==> Some(r.value[i]) == opts[i]
  {
    if opts == [] then Some([])
    else
      match AllSome(opts[..|opts| - 1])
      case None => None
      case Some(vs) =>
        match opts[|opts| - 1]
        case None => None
        case Some(v) => Some(vs + [v])
  }

  /** The book moves of a block's lines, in order; one bad line makes the whole load
      throw. */
  function BookMovesOf(lines: seq<string>): (r: Option<seq<BookMove>>)
    ensures r.Some? <==> forall i :: 0 <= i < |lines| ==> BookMoveOf(lines[i]).Some?
    ensures r.Some? ==>
      |r.value| == |lines| && forall i :: 0 <= i < |lines| ==> Some(r.value[i]) == BookMoveOf(lines[i])
  {
    var opts := seq(|lines|, i requires 0 <= i < |lines| => BookMoveOf(lines[i]));
    assert forall i :: 0 <= i < |lines| ==> opts[i] == BookMoveOf(lines[i]);
    AllSome(opts)
  }

  /** The lines of a block. */
  function Lines(entry: string): seq<string> {
    Split(Trim(entry), "\n")
  }

  /** The guard on the number of lines never fails: a trimmed block does not start with
      a line break, so its first line is never dropped as a trailing empty piece. */
  lemma LinesNonEmpty(entry: string)
    ensures |Lines(entry)| > 0
  {
    var t := Trim(entry);
    if IndexOf(t, "\n").Some? {
      var i := IndexOf(t, "\n").value;
      assert t[i..i + 1] == "\n";
      assert t[i] == '\n';
      var ps := Pieces(t, "\n");
      assert ps[0] == t[..i] && ps[0] != "";
    }
  }

  /** What a block of a book file stores: the key of its first line and the moves of
      the others, or `None` when one of those lines throws. */
  datatype Block = Block(key: string, moves: Option<seq<BookMove>>)

  function ParseBlock(entry: string): Block {
    var lines := Lines(entry);
    LinesNonEmpty(entry);
    Block(RemoveMoveCounters(Trim(lines[0])), BookMovesOf(lines[1..]))
  }

  /** `loadBook`'s loop over the blocks, from a given map: each block's moves are stored
      under its key, replacing what was stored there. */
  function LoadBlocks(m0: map<string, seq<BookMove>>, blocks: seq<Block>): Option<map<string, seq<BookMove>>> {
    if blocks == [] then Some(m0)
    else
      var last := blocks[|blocks| - 1];
      match LoadBlocks(m0, blocks[..|blocks| - 1])
      case None => None
      case Some(m) => if last.moves.None? then None else Some(m[last.key := last.moves.value])
  }

  /** The blocks of a book file: the trimmed text split on "pos". */
  function Entries(fileContent: string): seq<string> {
    Split(Trim(fileContent), "pos")
  }

  function ParseBlocks(entries: seq<string>): (r: seq<Block>)
    ensures |r| == |entries|
    ensures forall i :: 0 <= i < |r| ==> r[i] == ParseBlock(entries[i])
  {
    seq(|entries|, i requires 0 <= i < |entries| => ParseBlock(entries[i]))
  }

  function BlocksOf(fileContent: string): (r: seq<Block>)
    ensures |r| == |Entries(fileContent)|
    ensures forall i :: 0 <= i < |r| ==> r[i] == ParseBlock(Entries(fileContent)[i])
  {
    ParseBlocks(Entries(fileContent))
  }

  /** The map a book file loads into, or `None` when loading throws. */
  function BookOf(fileContent: string): Option<map<string, seq<BookMove>>> {
    LoadBlocks(map[], BlocksOf(fileContent))
  }

  /** Loading succeeds exactly when every block's move lines parse. */
  lemma {:induction false} LoadSucceedsIff(m0: map<string, seq<BookMove>>, blocks: seq<Block>)
    ensures LoadBlocks(m0, blocks).Some? <==> forall i :: 0 <= i < |blocks| ==> blocks[i].moves.Some?
  {
    if blocks != [] {
      var init := blocks[..|blocks| - 1];
      LoadSucceedsIff(m0, init);
      assert forall i :: 0 <= i < |init| ==> init[i] == blocks[i];
    }
  }

  /** A loaded book holds the starting keys and the key of every block, and no other. */
  lemma {:induction false} LoadedKeys(m0: map<string, seq<BookMove>>, blocks: seq<Block>)
    requires LoadBlocks(m0, blocks).Some?
    ensures forall k :: k in LoadBlocks(m0, blocks).value <==>
      k in m0 || exists i :: 0 <= i < |blocks| && blocks[i].key == k
  {
    if blocks != [] {
      var init := blocks[..|blocks| - 1];
      var n := |blocks| - 1;
      LoadedKeys(m0, init);
      assert forall i :: 0 <= i < |init| ==> init[i] == blocks[i];
      forall k | k in LoadBlocks(m0, blocks).value
        ensures k in m0 || exists i :: 0 <= i < |blocks| && blocks[i].key == k
      {
        if k == blocks[n].key {
          assert 0 <= n < |blocks| && blocks[n].key == k;
        }
      }
    }
  }

  /** A key holds the moves of the last block stored under it: a later block with the
      same key replaces an earlier one. */
  lemma {:induction false} LastBlockWins(m0: map<string, seq<BookMove>>, blocks: seq<Block>, i: int)
    requires LoadBlocks(m0, blocks).Some? && 0 <= i < |blocks|
    requires forall j :: i < j < |blocks| ==> blocks[j].key != blocks[i].key
    ensures blocks[i].moves.Some?
    ensures blocks[i].key in LoadBlocks(m0, blocks).value
    ensures LoadBlocks(m0, blocks).value[blocks[i].key] == blocks[i].moves.value
  {
    var init := blocks[..|blocks| - 1];
    if i < |blocks| - 1 {
      assert forall j :: 0 <= j < |init| ==> init[j] == blocks[j];
      LastBlockWins(m0, init, i);
    }
  }

  /** A block whose key no later block repeats comes back from the book with the moves
      of its lines, in order. */
  lemma BookHoldsLastBlock(fileContent: string, i: int)
    requires BookOf(fileContent).Some? && 0 <= i < |Entries(fileContent)|
    requires var es := Entries(fileContent);
      forall j :: i < j < |es| ==> BlockKey(es[j]) != BlockKey(es[i])
    ensures var lines := Lines(Entries(fileContent)[i]);
      |lines| > 0 &&
      BlockKey(Entries(fileContent)[i]) in BookOf(fileContent).value &&
      BookMovesOf(lines[1..]).Some? &&
      BookOf(fileContent).value[BlockKey(Entries(fileContent)[i])] == BookMovesOf(lines[1..]).value
  {
    var bs := BlocksOf(fileContent);
    LinesNonEmpty(Entries(fileContent)[i]);
    LastBlockWins(map[], bs, i);
  }

  /** The key a block is stored under. */
  function BlockKey(entry: string): string {
    ParseBlock(entry).key
  }

  /** A block whose lines parse extends a successful load by its entry. */
  lemma LoadStep(m0: map<string, seq<BookMove>>, blocks: seq<Block>, i: nat, m: map<string, seq<BookMove>>)
    requires i < |blocks| && LoadBlocks(m0, blocks[..i]) == Some(m) && blocks[i].moves.Some?
    ensures LoadBlocks(m0, blocks[..i + 1]) == Some(m[blocks[i].key := blocks[i].moves.value])
  {
    assert blocks[..i + 1][..i] == blocks[..i];
  }

  /** The fields of a parsed block. */
  lemma ParseBlockFields(entry: string)
    ensures |Lines(entry)| > 0
    ensures ParseBlock(entry) == Block(RemoveMoveCounters(Trim(Lines(entry)[0])), BookMovesOf(Lines(entry)[1..]))
  {
    LinesNonEmpty(entry);
  }

  /** The body of `loadBook`'s loop for one block: its trimmed lines, the key of the
      first and the moves of the others. The guard on the number of lines always holds
      (`LinesNonEmpty`). */
  method ReadBlock(entry: string) returns (block: Block)
    ensures block == ParseBlock(entry)
  {
    var lines := Split(Trim(entry), "\n");
    LinesNonEmpty(entry);
    var fen := Trim(lines[0]);
    var bookMoves := BookMovesOf(lines[1..]);
    block := Block(RemoveMoveCounters(fen), bookMoves);
  }

  class OpeningBook {
    var movesByPosition: map<string, seq<BookMove>>

    constructor Empty()
      ensures movesByPosition == map[]
    {
      movesByPosition := map[];
    }

    /** The public constructor: an empty book that loads the file, or an exception. */
    static method New(fileContent: string) returns (r: Option<OpeningBook>)
      ensures r.Some? <==> BookOf(fileContent).Some?
      ensures r.Some? ==> fresh(r.value) && r.value.movesByPosition == BookOf(fileContent).value
    {
      var book := new OpeningBook.Empty();
      var ok := book.LoadBook(fileContent);
      if ok {
        r := Some(book);
      } else {
        r := None;
      }
    }

    /** `loadBook`: each block stores its moves under its key; `false` when a line
        throws, the map then holding what the blocks before the failing one stored. */
    method LoadBook(fileContent: string) returns (ok: bool)
      modifies this
      ensures ok <==> LoadBlocks(old(movesByPosition), BlocksOf(fileContent)).Some?
      ensures ok ==> movesByPosition == LoadBlocks(old(movesByPosition), BlocksOf(fileContent)).value
      ensures !ok ==>
        exists i :: 0 <= i < |BlocksOf(fileContent)| && BlocksOf(fileContent)[i].moves.None? &&
          LoadBlocks(old(movesByPosition), BlocksOf(fileContent)[..i]) == Some(movesByPosition)
    {
      var entries := Split(Trim(fileContent), "pos");
      ok := StoreEntries(entries);
    }

    /** The loop of `loadBook` over the blocks of the file. */
    method StoreEntries(entries: seq<string>) returns (ok: bool)
      modifies this
      ensures ok <==> LoadBlocks(old(movesByPosition), ParseBlocks(entries)).Some?
      ensures ok ==> movesByPosition == LoadBlocks(old(movesByPosition), ParseBlocks(entries)).value
      ensures !ok ==>
        exists i :: 0 <= i < |entries| && ParseBlocks(entries)[i].moves.None? &&
          LoadBlocks(old(movesByPosition), ParseBlocks(entries)[..i]) == Some(movesByPosition)
    {
      ghost var blocks := ParseBlocks(entries);
      ghost var m0 := movesByPosition;
      for i := 0 to |entries|
        invariant LoadBlocks(m0, blocks[..i]) == Some(movesByPosition)
      {
        var block := ReadBlock(entries[i]);
        if block.moves.None? {
          LoadSucceedsIff(m0, blocks);
          return false;
        }
        LoadStep(m0, blocks, i, movesByPosition);
        movesByPosition := movesByPosition[block.key := block.moves.value];
      }
      assert blocks[..|entries|] == blocks;
      return true;
    }

    /** `hasBookMove`: the book holds the key of the record. */
    predicate HasBookMove(positionFen: string)
      reads this
    {
      RemoveMoveCounters(positionFen) in movesByPosition
    }

    /** `getBookMove`. The weighted draw is outside the model: `chosen` is the index
        it selects, or any index outside the list when it selects none. */
    method GetBookMove(positionFen: string, chosen: int) returns (r: Option<string>)
      ensures var key := RemoveMoveCounters(positionFen);
        key !in movesByPosition || movesByPosition[key] == [] ==> r.None?
      ensures r.Some? ==> var moves := movesByPosition[RemoveMoveCounters(positionFen)];
        0 <= chosen < |moves| && r.value == moves[chosen].moveString
    {
      var key := RemoveMoveCounters(positionFen);
      if key in movesByPosition {
        var moves := movesByPosition[key];
        if moves != [] && 0 <= chosen < |moves| {
          return Some(moves[chosen].moveString);
        }
      }
      return None;
    }
  }

  /** Whether the book has a move does not depend on the move counters of the record. */
  lemma HasBookMoveIgnoresCounters(book: OpeningBook, fields: seq<string>, counters1: seq<string>, counters2: seq<string>)
    requires |fields| == 4 && SpaceFree(fields) && fields[3] != ""
    requires SpaceFree(counters1) && SpaceFree(counters2)
    ensures book.HasBookMove(Join(" ", fields + counters1)) == book.HasBookMove(Join(" ", fields + counters2))
  {
    CountersIgnored(fields, counters1, counters2);
  }
}
