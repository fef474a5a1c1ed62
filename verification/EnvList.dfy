/** The comma-list reader for transport allowlists. */
module EnvList {
  import opened Wrappers
  import opened Text

  datatype EnvValue = Unset | NotUnicode | Text(value: string)
  datatype ConfigError = NotUtf8 | EmptyAllowlist

  /** Trim every piece and keep the non-empty ones. */
  function CleanItems(pieces: seq<string>): seq<string> {
    if pieces == [] then []
    else (if Trim(pieces[0]) != [] then [Trim(pieces[0])] else []) + CleanItems(pieces[1..])
  }

  function ParseList(value: string): seq<string> {
    CleanItems(Split(value, ','))
  }

  function EnvList(env: EnvValue, default: seq<string>): Result<seq<string>, ConfigError> {
    match env
    case Unset => Success(default)
    case NotUnicode => Failure(NotUtf8)
    case Text(value) => if ParseList(value) == [] then Failure(EmptyAllowlist) else Success(ParseList(value))
  }

  ghost predicate CleanItem(item: string) {
    item != [] && Trimmed(item) && ',' !in item
  }

  ghost predicate CleanList(items: seq<string>) {
    forall i :: 0 <= i < |items| ==> CleanItem(items[i])
  }

  lemma TrimmedPieceIsClean(piece: string)
    requires ',' !in piece
    ensures Trim(piece) == [] <==> AllWhitespace(piece)
    ensures Trim(piece) != [] ==> CleanItem(Trim(piece))
  {
    BlankIffAllWhitespace(piece);
    var left, right := TrimSplits(piece);
    assert forall c :: c in Trim(piece) ==> c in piece;
  }

  ghost predicate AllBlank(pieces: seq<string>) {
    forall i :: 0 <= i < |pieces| ==> AllWhitespace(pieces[i])
  }

  lemma {:induction false} CleanItemsAreClean(pieces: seq<string>)
    requires forall i :: 0 <= i < |pieces| ==> ',' !in pieces[i]
    ensures CleanList(CleanItems(pieces))
    ensures CleanItems(pieces) == [] <==> AllBlank(pieces)
  {
    if pieces != [] {
      var head, tail := pieces[0], pieces[1..];
      CleanItemsAreClean(tail);
      TrimmedPieceIsClean(head);
      assert pieces == [head] + tail;
      assert AllBlank(pieces) <==> AllWhitespace(head) && AllBlank(tail);
    }
  }

  lemma {:induction false} CleanItemsOfClean(items: seq<string>)
    requires CleanList(items)
    ensures CleanItems(items) == items
  {
    if items != [] {
      CleanItemsOfClean(items[1..]);
      assert CleanItem(items[0]);
      TrimOfTrimmed(items[0]);
    }
  }

  /** Parsing the comma-join of a clean list gives the list back. */
  lemma {:induction false} ParseOfJoin(items: seq<string>)
    requires items != [] && CleanList(items)
    ensures ParseList(Join(",", items)) == items
  {
    forall i | 0 <= i < |items| ensures ',' !in items[i] {
      assert CleanItem(items[i]);
    }
    SplitOfJoin(items, ',');
    CleanItemsOfClean(items);
  }

  /** The lists a set variable can produce are exactly the non-empty clean lists. */
  lemma AcceptedListsAreCleanLists(items: seq<string>, default: seq<string>)
    ensures items != [] && CleanList(items) <==>
            exists value :: EnvList(Text(value), default) == Success(items)
  {
    if items != [] && CleanList(items) {
      ParseOfJoin(items);
      assert EnvList(Text(Join(",", items)), default) == Success(items);
    }
    if value :| EnvList(Text(value), default) == Success(items) {
      JoinOfSplit(value, ',');
      CleanItemsAreClean(Split(value, ','));
    }
  }

  /** The default is for an unset variable only, whatever it holds; a value that is not Unicode is
      an error of its own; and any other value gives its items or is refused as empty. */
  lemma DefaultIsForUnset(env: EnvValue, default: seq<string>)
    ensures env.Unset? ==> EnvList(env, default) == Success(default)
    ensures EnvList(env, default) == Failure(NotUtf8) <==> env.NotUnicode?
    ensures env.Text? ==> EnvList(env, default) == EnvList(env, [])
    ensures env.Text? ==>
              EnvList(env, default) == Failure(EmptyAllowlist) || EnvList(env, default) == Success(ParseList(env.value))
  {
  }

  lemma {:induction false} CleanItemsOfAppend(a: seq<string>, b: seq<string>)
    ensures CleanItems(a + b) == CleanItems(a) + CleanItems(b)
    decreases |a|
  {
    if a == [] {
      assert a + b == b;
    } else {
      assert (a + b)[1..] == a[1..] + b;
      CleanItemsOfAppend(a[1..], b);
    }
  }

  /** Around a comma, what is read is what each side holds, in order; and one piece without a comma
      gives itself, trimmed, or nothing when it is blank. */
  lemma CommaSeparates(left: string, right: string)
    requires ',' !in left
    ensures ParseList(left + [','] + right) == ParseList(left) + ParseList(right)
    ensures ParseList(left) == if AllWhitespace(left) then [] else [Trim(left)]
  {
    SplitAtFirstSep(left, right, ',');
    SplitWithoutSep(left, ',');
    CleanItemsOfAppend([left], Split(right, ','));
    BlankIffAllWhitespace(left);
  }

  /** A set variable is refused as empty exactly when it holds only commas and whitespace. */
  lemma RefusedIffNothingButSeparators(value: string, default: seq<string>)
    ensures EnvList(Text(value), default) == Failure(EmptyAllowlist) <==>
            forall i :: 0 <= i < |value| ==> value[i] == ',' || IsWhitespace(value[i])
  {
    var pieces := Split(value, ',');
    JoinOfSplit(value, ',');
    CleanItemsAreClean(pieces);
    JoinCharacters(pieces);
  }

  lemma {:induction false} JoinCharacters(pieces: seq<string>)
    ensures (forall i :: 0 <= i < |pieces| ==> ',' !in pieces[i]) ==>
              (AllBlank(pieces) <==>
               (forall c :: c in Join(",", pieces) ==> c == ',' || IsWhitespace(c)))
  {
    if |pieces| > 0 {
      var head, tail := pieces[0], pieces[1..];
      JoinCharacters(tail);
      assert pieces == [head] + tail;
      if |pieces| > 1 {
        assert Join(",", pieces) == head + "," + Join(",", tail);
        assert forall c :: c in Join(",", pieces) <==> c in head || c == ',' || c in Join(",", tail);
      }
      assert AllBlank(pieces) <==> AllWhitespace(head) && AllBlank(tail);
      assert AllWhitespace(head) <==> forall c :: c in head ==> IsWhitespace(c);
    }
  }

  /** Writing a parsed list back and reading it again changes nothing. */
  lemma ParseJoinParse(value: string)
    ensures ParseList(Join(",", ParseList(value))) == ParseList(value)
  {
    JoinOfSplit(value, ',');
    CleanItemsAreClean(Split(value, ','));
    if ParseList(value) == [] {
      assert Trim("") == "";
    } else {
      ParseOfJoin(ParseList(value));
    }
  }
}
