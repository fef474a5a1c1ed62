/** `collect_output`: the bounded, early-exit fold over output parts, against a declarative join. */
module CollectOutput {
  import opened Wrappers
  import opened ProviderErrors
  import opened Text

  function NonBlank(parts: seq<string>): seq<string> {
    if parts == [] then []
    else (if Trim(parts[0]) != [] then [parts[0]] else []) + NonBlank(parts[1..])
  }

  /** One step of the fold: checked lengths, the limit, then the append. */
  function AppendPart(output: string, part: string, limit: Usize): Result<string, ProviderError> {
    var separator := if output != [] then 1 else 0;
    var withSeparator := CheckedAdd(Utf8Len(output), separator);
    var nextLen := if withSeparator.None? then None else CheckedAdd(withSeparator.value, Utf8Len(part));
    if nextLen.None? || nextLen.value > limit then Failure(Exceeded("output"))
    else Success(if separator == 1 then output + "\n" + part else output + part)
  }

  function Fold(output: string, parts: seq<string>, limit: Usize): Result<string, ProviderError>
    decreases |parts|
  {
    if parts == [] then Success(output)
    else
      var next :- AppendPart(output, parts[0], limit);
      Fold(next, parts[1..], limit)
  }

  function Collect(parts: seq<string>, limit: Usize): Result<string, ProviderError> {
    var output :- Fold([], NonBlank(parts), limit);
    if output == [] then Failure(EmptyResponse) else Success(output)
  }

  // ---------------------------------------------------------------- against the join

  /** The result said without a fold. */
  function Joined(parts: seq<string>, limit: Usize): Result<string, ProviderError> {
    var text := Join("\n", NonBlank(parts));
    if NonBlank(parts) == [] then Failure(EmptyResponse)
    else if Utf8Len(text) > limit then Failure(Exceeded("output"))
    else Success(text)
  }

  ghost predicate NoneEmpty(parts: seq<string>) {
    forall i :: 0 <= i < |parts| ==> parts[i] != []
  }

  lemma {:induction false} NonBlankParts(parts: seq<string>)
    ensures NoneEmpty(NonBlank(parts))
    ensures forall i :: 0 <= i < |NonBlank(parts)| ==> !AllWhitespace(NonBlank(parts)[i]) && NonBlank(parts)[i] in parts
    ensures forall p :: p in parts && !AllWhitespace(p) ==> p in NonBlank(parts)
  {
    if parts != [] {
      NonBlankParts(parts[1..]);
      BlankIffAllWhitespace(parts[0]);
    }
  }

  lemma {:induction false} LineLength(output: string, part: string)
    ensures Utf8Len(output + "\n" + part) == Utf8Len(output) + 1 + Utf8Len(part)
  {
    Utf8LenOfConcat(output, "\n");
    Utf8LenOfConcat(output + "\n", part);
    assert "\n"[..0] == [];
  }

  /** Folding onto a non-empty output appends a line per part, or fails as soon as the whole is
      known to be too long. */
  lemma {:induction false} FoldContinues(output: string, parts: seq<string>, limit: Usize)
    requires output != [] && Utf8Len(output) <= limit && NoneEmpty(parts)
    ensures var text := Join("\n", [output] + parts);
            Fold(output, parts, limit) == if Utf8Len(text) > limit then Failure(Exceeded("output")) else Success(text)
    decreases |parts|
  {
    if parts == [] {
      assert [output] + parts == [output];
    } else {
      var next := output + "\n" + parts[0];
      LineLength(output, parts[0]);
      JoinMerges(output, parts);
      if Utf8Len(next) <= limit {
        FoldContinues(next, parts[1..], limit);
      } else {
        JoinStartsWithHead(next, parts[1..]);
      }
    }
  }

  lemma {:induction false} JoinMerges(output: string, parts: seq<string>)
    requires parts != []
    ensures Join("\n", [output] + parts) == Join("\n", [output + "\n" + parts[0]] + parts[1..])
  {
    var head, tail := parts[0], parts[1..];
    assert [head] + tail == parts;
    JoinCons("\n", output, parts);
    JoinCons("\n", head, tail);
    JoinCons("\n", output + "\n" + head, tail);
    Associate(output + "\n", head, "\n", Join("\n", tail));
  }

  lemma Associate(a: string, b: string, c: string, d: string)
    ensures a + (b + c + d) == a + b + c + d
  {
  }

  lemma {:induction false} JoinStartsWithHead(head: string, rest: seq<string>)
    ensures Utf8Len(Join("\n", [head] + rest)) >= Utf8Len(head)
    ensures |Join("\n", [head] + rest)| >= |head|
  {
    JoinCons("\n", head, rest);
    if rest != [] {
      Utf8LenOfConcat(head, "\n");
      Utf8LenOfConcat(head + "\n", Join("\n", rest));
    }
  }

  /** The fold refines the join: the same text, the same limit, the same three outcomes. */
  lemma CollectIsJoined(parts: seq<string>, limit: Usize)
    ensures Collect(parts, limit) == Joined(parts, limit)
  {
    var kept := NonBlank(parts);
    NonBlankParts(parts);
    if kept != [] {
      assert [kept[0]] + kept[1..] == kept;
      JoinStartsWithHead(kept[0], kept[1..]);
      assert [] + kept[0] == kept[0];
      if Utf8Len(kept[0]) <= limit {
        assert AppendPart([], kept[0], limit) == Success(kept[0]);
        FoldContinues(kept[0], kept[1..], limit);
      }
    }
  }

  /** Ok text is the newline-join of exactly the non-blank parts, within the limit and not blank
      itself; EmptyResponse means every part is blank; any other failure is the bound. */
  lemma {:induction false} CollectMeaning(parts: seq<string>, limit: Usize)
    ensures Collect(parts, limit).Success? ==>
              && Collect(parts, limit).value == Join("\n", NonBlank(parts))
              && Utf8Len(Collect(parts, limit).value) <= limit
              && !AllWhitespace(Collect(parts, limit).value)
    ensures Collect(parts, limit) == Failure(EmptyResponse) <==> forall p :: p in parts ==> AllWhitespace(p)
    ensures Collect(parts, limit).Failure? ==> Collect(parts, limit).error in {EmptyResponse, Exceeded("output")}
  {
    CollectIsJoined(parts, limit);
    NonBlankParts(parts);
    var kept := NonBlank(parts);
    if kept != [] {
      assert kept[0] in parts && !AllWhitespace(kept[0]);
      assert [kept[0]] + kept[1..] == kept;
      JoinKeepsHead(kept);
    }
  }

  lemma {:induction false} JoinKeepsHead(parts: seq<string>)
    requires parts != [] && !AllWhitespace(parts[0])
    ensures !AllWhitespace(Join("\n", parts))
  {
    var i :| 0 <= i < |parts[0]| && !IsWhitespace(parts[0][i]);
    assert Join("\n", parts)[i] == parts[0][i];
  }

  // ---------------------------------------------------------------- which parts, in which order

  lemma {:induction false} NonBlankOfAppend(a: seq<string>, b: seq<string>)
    ensures NonBlank(a + b) == NonBlank(a) + NonBlank(b)
    decreases |a|
  {
    if a == [] {
      assert a + b == b;
    } else {
      assert (a + b)[1..] == a[1..] + b;
      NonBlankOfAppend(a[1..], b);
    }
  }

  lemma {:induction false} NonBlankKeepsAll(parts: seq<string>)
    requires forall i :: 0 <= i < |parts| ==> !AllWhitespace(parts[i])
    ensures NonBlank(parts) == parts
  {
    if parts != [] {
      BlankIffAllWhitespace(parts[0]);
      NonBlankKeepsAll(parts[1..]);
      assert parts == [parts[0]] + parts[1..];
    }
  }

  /** Parts that are not blank all count, in their order and untrimmed. */
  lemma {:induction false} PartsAreJoinedInOrder(parts: seq<string>, limit: Usize)
    requires parts != [] && forall i :: 0 <= i < |parts| ==> !AllWhitespace(parts[i])
    ensures Collect(parts, limit) ==
            if Utf8Len(Join("\n", parts)) > limit then Failure(Exceeded("output")) else Success(Join("\n", parts))
  {
    NonBlankKeepsAll(parts);
    CollectIsJoined(parts, limit);
  }

  /** A blank part, wherever it stands, is as good as none. */
  lemma BlankPartsDoNotCount(a: seq<string>, blank: string, b: seq<string>, limit: Usize)
    requires AllWhitespace(blank)
    ensures Collect(a + [blank] + b, limit) == Collect(a + b, limit)
  {
    BlankIffAllWhitespace(blank);
    NonBlankOfAppend(a + [blank], b);
    NonBlankOfAppend(a, [blank]);
    NonBlankOfAppend(a, b);
    assert NonBlank([blank]) == [];
    assert NonBlank(a + [blank]) == NonBlank(a);
  }
}
