/** Writing a file in pieces: the order in which disjoint pieces reach it does not matter. */
module Pieces {
  import opened Common
  import opened Session

  datatype Piece = Piece(offset: nat, data: Bytes)

  /** The file that results from writing the pieces to an empty file, in order. */
  function WriteAll(pieces: seq<Piece>): Bytes {
    if pieces == [] then []
    else
      var last := pieces[|pieces| - 1];
      Splice(WriteAll(pieces[..|pieces| - 1]), last.offset, last.data)
  }

  /** The pieces follow each other from 0 and add up to `full`. */
  ghost predicate PiecesTile(pieces: seq<Piece>, full: Bytes) {
    if pieces == [] then full == []
    else
      var last := pieces[|pieces| - 1];
      && 0 < |last.data| <= REQUEST_SIZE && last.offset + |last.data| == |full|
      && full[last.offset..] == last.data
      && PiecesTile(pieces[..|pieces| - 1], full[..last.offset])
  }

  ghost predicate PartOf(piece: Piece, full: Bytes) {
    piece.offset + |piece.data| <= |full| && full[piece.offset..piece.offset + |piece.data|] == piece.data
  }

  lemma SpliceAt(content: Bytes, offset: nat, data: Bytes)
    ensures |Splice(content, offset, data)| == Max(|content|, offset + |data|)
    ensures forall i :: 0 <= i < |Splice(content, offset, data)| ==>
              Splice(content, offset, data)[i] ==
              if offset <= i < offset + |data| then data[i - offset] else if i < |content| then content[i] else 0
  {
  }

  /** A part of `full` stays in the file when another part of `full` is written to it. */
  lemma SpliceKeepsPart(content: Bytes, last: Piece, p: Piece, full: Bytes)
    requires PartOf(last, full) && PartOf(p, full) && PartOf(p, content)
    ensures PartOf(p, Splice(content, last.offset, last.data))
  {
    var spliced := Splice(content, last.offset, last.data);
    SpliceAt(content, last.offset, last.data);
    hide Splice;
    forall j | 0 <= j < |p.data|
      ensures spliced[p.offset + j] == p.data[j]
    {
      var i := p.offset + j;
      assert full[p.offset..p.offset + |p.data|][j] == full[i];
      assert content[p.offset..p.offset + |p.data|][j] == content[i];
      if last.offset <= i < last.offset + |last.data| {
        assert full[last.offset..last.offset + |last.data|][i - last.offset] == full[i];
      }
    }
  }

  lemma SpliceIsPart(content: Bytes, last: Piece)
    ensures PartOf(last, Splice(content, last.offset, last.data))
  {
    SpliceAt(content, last.offset, last.data);
  }

  /** However often and in whatever order parts of `full` are written, each is in the file. */
  lemma {:induction false} WritingParts(pieces: seq<Piece>, full: Bytes)
    requires forall p :: p in pieces ==> PartOf(p, full)
    ensures |WriteAll(pieces)| <= |full|
    ensures forall p :: p in pieces ==> PartOf(p, WriteAll(pieces))
  {
    if pieces != [] {
      var last, before := pieces[|pieces| - 1], pieces[..|pieces| - 1];
      assert pieces == before + [last];
      WritingParts(before, full);
      var content := WriteAll(before);
      SpliceAt(content, last.offset, last.data);
      SpliceIsPart(content, last);
      hide Splice;
      assert PartOf(last, full);
      forall p | p in pieces
        ensures PartOf(p, WriteAll(pieces))
      {
        if p != last {
          SpliceKeepsPart(content, last, p, full);
        }
      }
    }
  }

  /** A file that holds every tile of `full` starts with `full`, whose parts the tiles are. */
  lemma {:induction false} TilesDetermine(tiles: seq<Piece>, full: Bytes, content: Bytes)
    requires PiecesTile(tiles, full)
    requires forall p :: p in tiles ==> PartOf(p, content)
    ensures |full| <= |content| && content[..|full|] == full
  {
    if tiles != [] {
      var last, before := tiles[|tiles| - 1], tiles[..|tiles| - 1];
      assert last in tiles;
      TilesDetermine(before, full[..last.offset], content);
      assert content[..|full|] == content[..last.offset] + content[last.offset..|full|];
    }
  }

  lemma {:induction false} TilesAreParts(tiles: seq<Piece>, full: Bytes)
    requires PiecesTile(tiles, full)
    ensures forall p :: p in tiles ==> PartOf(p, full)
  {
    if tiles != [] {
      var last, before := tiles[|tiles| - 1], tiles[..|tiles| - 1];
      assert tiles == before + [last];
      TilesAreParts(before, full[..last.offset]);
      forall p | p in before
        ensures PartOf(p, full)
      {
        assert full[..last.offset][p.offset..p.offset + |p.data|] == full[p.offset..p.offset + |p.data|];
      }
    }
  }

  /** No two tiles share a byte. */
  lemma {:induction false} TilesAreDisjoint(tiles: seq<Piece>, full: Bytes, i: nat, j: nat)
    requires PiecesTile(tiles, full) && i < j < |tiles|
    ensures tiles[i].offset + |tiles[i].data| <= tiles[j].offset
  {
    var last, before := tiles[|tiles| - 1], tiles[..|tiles| - 1];
    if j < |before| {
      TilesAreDisjoint(before, full[..last.offset], i, j);
    } else {
      TilesAreParts(before, full[..last.offset]);
      assert before[i] in before;
    }
  }

  /** Writing all the tiles of `full`, each at least once and in any order, writes `full`. */
  lemma WritingTiles(pieces: seq<Piece>, tiles: seq<Piece>, full: Bytes)
    requires PiecesTile(tiles, full)
    requires forall p :: p in pieces <==> p in tiles
    ensures WriteAll(pieces) == full
  {
    hide WriteAll, PiecesTile, PartOf;
    TilesAreParts(tiles, full);
    WritingParts(pieces, full);
    TilesDetermine(tiles, full, WriteAll(pieces));
  }

  /** Tiles give the same file in every order of applying them: their concatenation. */
  lemma AnyOrder(tiles: seq<Piece>, full: Bytes, order: seq<Piece>)
    requires PiecesTile(tiles, full) && multiset(order) == multiset(tiles)
    ensures WriteAll(order) == full
  {
    hide WriteAll, PiecesTile;
    assert forall p :: p in order <==> p in multiset(order);
    assert forall p :: p in tiles <==> p in multiset(tiles);
    WritingTiles(order, tiles, full);
  }
}
