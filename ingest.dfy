/** The document construction of experiments/integrate-with-datastax.py:
    every dataset entry of philosophers' quotes becomes a document holding
    the quote, with metadata naming the author and flagging each of the
    entry's `;`-separated tags with "y". Loading the dataset, embedding and
    storing the documents are not part of this model. */
module Ingest {
  import opened Text

  datatype Option<T> = None | Some(value: T)

  /** One dataset row; `tags` is absent (None) or a `;`-separated string. */
  datatype Entry = Entry(author: string, quote: string, tags: Option<string>)

  /** A LangChain document: page content and a string-to-string metadata map. */
  datatype Document = Document(pageContent: string, metadata: map<string, string>)

  const AuthorKey: string := "author"
  const TagSeparator: char := ';'
  const TagFlag: string := "y"

  /** Python truth of `entry["tags"]`: present and not the empty string. */
  predicate HasTags(e: Entry) {
    e.tags.Some? && e.tags.value != ""
  }

  /** The distinct elements of a sequence of pieces. */
  function PieceSet(pieces: seq<string>): (s: set<string>)
    ensures forall p :: p in s <==> p in pieces
  {
    set p | p in pieces
  }

  /** The keys the tags contribute: every piece of the split, empty pieces
      included, each once. */
  function TagKeys(e: Entry): (keys: set<string>)
    ensures !HasTags(e) ==> keys == {}
    ensures HasTags(e) ==> forall k :: k in keys <==> k in Split(e.tags.value, TagSeparator)
  {
    if HasTags(e) then PieceSet(Split(e.tags.value, TagSeparator)) else {}
  }

  /** Metadata with the author under "author" and every key of `flags` set to
      "y"; a flag named "author" wins over the author. */
  function MetadataWith(author: string, flags: set<string>): (m: map<string, string>)
    ensures m.Keys == flags + {AuthorKey}
    ensures forall k :: k in flags ==> m[k] == TagFlag
    ensures AuthorKey !in flags ==> m[AuthorKey] == author
  {
    map k | k in flags + {AuthorKey} :: if k in flags then TagFlag else author
  }

  /** The metadata the script builds for an entry: without tags, exactly
      the author; with tags, the author key and the split pieces and nothing
      else, every piece mapped to "y", and the author kept unless a piece is
      "author". */
  function Metadata(e: Entry): (m: map<string, string>)
    ensures !HasTags(e) ==> m == map[AuthorKey := e.author]
    ensures m.Keys == TagKeys(e) + {AuthorKey}
    ensures forall k :: k in TagKeys(e) ==> m[k] == TagFlag
    ensures m[AuthorKey] == if AuthorKey in TagKeys(e) then TagFlag else e.author
  {
    MetadataWith(e.author, TagKeys(e))
  }

  /** Empty pieces count as tags: `";;"` and a trailing `";"` split into
      empty strings. */
  lemma EmptyPieces()
    ensures Split(";;", TagSeparator) == ["", "", ""]
    ensures Split("x;", TagSeparator) == ["x", ""]
  {
    assert Join(["", "", ""], TagSeparator) == ";;";
    SplitJoin(["", "", ""], TagSeparator);
    assert Join(["x", ""], TagSeparator) == "x;";
    SplitJoin(["x", ""], TagSeparator);
  }

  /** A repeated tag gives one key. */
  lemma DuplicateTags(author: string, quote: string)
    ensures Metadata(Entry(author, quote, Some("x;x"))) == Metadata(Entry(author, quote, Some("x")))
  {
    assert Join(["x", "x"], TagSeparator) == "x;x";
    SplitJoin(["x", "x"], TagSeparator);
    assert Join(["x"], TagSeparator) == "x";
    SplitJoin(["x"], TagSeparator);
    assert TagKeys(Entry(author, quote, Some("x;x"))) == {"x"};
    assert TagKeys(Entry(author, quote, Some("x"))) == {"x"};
  }

  /** A tag named "author" replaces the author's name with "y". */
  lemma AuthorTagOverrides(author: string, quote: string)
    ensures Metadata(Entry(author, quote, Some("author")))[AuthorKey] == TagFlag
  {
    assert Join([AuthorKey], TagSeparator) == AuthorKey;
    SplitJoin([AuthorKey], TagSeparator);
    assert AuthorKey in TagKeys(Entry(author, quote, Some("author")));
  }

  /** Writing "y" under one more key is flagging one more key. */
  lemma FlagOneMore(author: string, flags: set<string>, key: string)
    ensures MetadataWith(author, flags)[key := TagFlag] == MetadataWith(author, flags + {key})
  {
  }

  /** The inner loop of one entry: start from the author, then write "y"
      under every piece of the split tags, in order. */
  method EntryMetadata(e: Entry) returns (metadata: map<string, string>)
    ensures metadata == Metadata(e)
  {
    metadata := map[AuthorKey := e.author];
    if HasTags(e) {
      var pieces := Split(e.tags.value, TagSeparator);
      assert PieceSet(pieces[..0]) == {};
      for j := 0 to |pieces|
        invariant metadata == MetadataWith(e.author, PieceSet(pieces[..j]))
      {
        assert PieceSet(pieces[..j + 1]) == PieceSet(pieces[..j]) + {pieces[j]} by {
          assert pieces[..j + 1] == pieces[..j] + [pieces[j]];
        }
        FlagOneMore(e.author, PieceSet(pieces[..j]), pieces[j]);
        metadata := metadata[pieces[j] := TagFlag];
      }
      assert pieces[..|pieces|] == pieces;
      assert PieceSet(pieces) == TagKeys(e);
    } else {
      assert TagKeys(e) == {};
    }
  }

  /** The outer loop: one document per entry, in dataset order, with the
      entry's quote as content and its metadata. */
  method BuildDocs(dataset: seq<Entry>) returns (docs: seq<Document>)
    ensures |docs| == |dataset|
    ensures forall i :: 0 <= i < |dataset| ==>
      docs[i].pageContent == dataset[i].quote && docs[i].metadata == Metadata(dataset[i])
  {
    docs := [];
    for i := 0 to |dataset|
      invariant |docs| == i
      invariant forall j :: 0 <= j < i ==>
        docs[j].pageContent == dataset[j].quote && docs[j].metadata == Metadata(dataset[j])
    {
      var metadata := EntryMetadata(dataset[i]);
      var doc := Document(dataset[i].quote, metadata);
      docs := docs + [doc];
    }
  }
}
