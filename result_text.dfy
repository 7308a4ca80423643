/** Result-text extraction: the text of the latest `item.completed` event
    that yields any, where an item yields its own non-empty `text` or else
    the first non-empty `output_text` block of its `content`. */
module CodexResult {
  import opened CodexEvents

  /** A content block the fallback scan accepts. */
  predicate Usable(c: Block)
  {
    c.kind == Some(OutputText) && Truthy(c.text)
  }

  /** The inner forward scan over `item.content`: the text of the first
      usable block, or "" when there is none. */
  function FirstOutputText(cs: seq<Block>): (r: string)
    ensures r == "" <==> forall k :: 0 <= k < |cs| ==> !Usable(cs[k])
    ensures r != "" ==> exists k :: 0 <= k < |cs| && Usable(cs[k]) && cs[k].text == Some(r)
                                   && forall j :: 0 <= j < k ==> !Usable(cs[j])
  {
    if cs == [] then ""
    else if Usable(cs[0]) then cs[0].text.value
    else
      var r := FirstOutputText(cs[1..]);
      assert r != "" ==> exists k :: 1 <= k < |cs| && Usable(cs[k]) && cs[k].text == Some(r)
                                   && forall j :: 0 <= j < k ==> !Usable(cs[j]) by {
        if r != "" {
          var k :| 0 <= k < |cs[1..]| && Usable(cs[1..][k]) && cs[1..][k].text == Some(r)
                   && forall j :: 0 <= j < k ==> !Usable(cs[1..][j]);
          assert forall j :: 0 <= j < k + 1 ==> !Usable(cs[j]) by {
            forall j | 0 <= j < k + 1 ensures !Usable(cs[j]) {
              if j > 0 { assert cs[j] == cs[1..][j - 1]; }
            }
          }
        }
      }
      assert r == "" ==> forall k :: 0 <= k < |cs| ==> !Usable(cs[k]) by {
        if r == "" {
          forall k | 0 <= k < |cs| ensures !Usable(cs[k]) {
            if k > 0 { assert cs[k] == cs[1..][k - 1]; }
          }
        }
      }
      r
  }

  /** What one item yields: its own text when that is non-empty, else the
      content fallback. */
  function ItemText(it: Item): string
  {
    if Truthy(it.text) then it.text.value else FirstOutputText(ContentOf(it))
  }

  /** What one event yields: an `item.completed` event yields its item's
      text, every other event yields nothing. */
  function EventText(e: Event): string
  {
    if IsItemCompleted(e) then ItemText(ItemOf(e)) else ""
  }

  /** An event the reverse scan stops at. */
  predicate Yields(e: Event)
  {
    EventText(e) != ""
  }

  /** No event of the sequence yields text. */
  predicate NoneYields(es: seq<Event>)
  {
    forall i :: 0 <= i < |es| ==> !Yields(es[i])
  }

  /** The result the reverse scan finds: scanning from the end, the first
      event that yields text. */
  function ResultOf(es: seq<Event>): string
  {
    if es == [] then ""
    else if Yields(es[|es| - 1]) then EventText(es[|es| - 1])
    else ResultOf(es[..|es| - 1])
  }

  /** The reverse scan with the nested forward scan over content blocks,
      leaving each loop as soon as usable text has been found. */
  method ExtractResult(events: seq<Event>) returns (resultText: string)
    ensures resultText == ResultOf(events)
  {
    resultText := "";
    var i := |events|;
    assert events[..i] == events;
    while i > 0
      invariant 0 <= i <= |events|
      invariant resultText == ""
      invariant ResultOf(events) == ResultOf(events[..i])
    {
      var e := events[i - 1];
      assert events[..i][..i - 1] == events[..i - 1];
      if IsItemCompleted(e) {
        var item := ItemOf(e);
        if Truthy(item.text) {
          resultText := item.text.value;
          break;
        }
        var content := ContentOf(item);
        var j := 0;
        while j < |content|
          invariant 0 <= j <= |content|
          invariant resultText == ""
          invariant FirstOutputText(content) == FirstOutputText(content[j..])
        {
          var c := content[j];
          if c.kind == Some(OutputText) && Truthy(c.text) {
            resultText := c.text.value;
            break;
          }
          assert content[j..][1..] == content[j + 1..];
          j := j + 1;
        }
        if resultText != "" {
          break;
        }
      }
      i := i - 1;
    }
  }

  /** The scan over a concatenation: the later part wins when it yields
      anything at all. */
  lemma {:induction false} ResultAppend(a: seq<Event>, b: seq<Event>)
    ensures ResultOf(a + b) == if ResultOf(b) != "" then ResultOf(b) else ResultOf(a)
  {
    if b == [] {
      assert a + b == a;
    } else {
      var b' := b[..|b| - 1];
      assert (a + b)[..|a + b| - 1] == a + b';
      assert (a + b)[|a + b| - 1] == b[|b| - 1];
      ResultAppend(a, b');
    }
  }

  /** The result is empty exactly when no event yields text. */
  lemma {:induction false} ResultEmptyIff(es: seq<Event>)
    ensures ResultOf(es) == "" <==> NoneYields(es)
  {
    if es != [] {
      var init := es[..|es| - 1];
      ResultEmptyIff(init);
      assert forall i :: 0 <= i < |init| ==> init[i] == es[i];
    }
  }

  /** Last wins, skip if empty: the result is the text of the latest event
      that yields any; later events that yield nothing are passed over. */
  lemma {:induction false} ResultLastWins(es: seq<Event>, i: nat)
    requires i < |es| && Yields(es[i])
    requires forall j :: i < j < |es| ==> !Yields(es[j])
    ensures ResultOf(es) == EventText(es[i])
  {
    if i < |es| - 1 {
      var init := es[..|es| - 1];
      assert forall j :: i < j < |init| ==> init[j] == es[j];
      ResultLastWins(init, i);
    }
  }

  /** Events that are not `item.completed` never affect the result. */
  lemma ResultIgnoresOtherEvents(a: seq<Event>, e: Event, b: seq<Event>)
    requires !IsItemCompleted(e)
    ensures ResultOf(a + [e] + b) == ResultOf(a + b)
  {
    ResultAppend(a + [e], b);
    ResultAppend(a, [e]);
    ResultAppend(a, b);
    assert [e][..0] == [];
  }

  /** Text precedence: a latest `item.completed` whose own `text` is
      non-empty gives that text, whatever its content blocks hold. */
  lemma TextPrecedence(a: seq<Event>, e: Event, b: seq<Event>)
    requires IsItemCompleted(e) && Truthy(ItemOf(e).text)
    requires forall j :: 0 <= j < |b| ==> !Yields(b[j])
    ensures ResultOf(a + [e] + b) == ItemOf(e).text.value
  {
    var es := a + [e] + b;
    assert es[|a|] == e;
    assert forall j :: |a| < j < |es| ==> es[j] == b[j - |a| - 1];
    ResultLastWins(es, |a|);
  }

  /** The first usable block is the one the inner scan returns. */
  lemma {:induction false} FirstOutputTextAt(cs: seq<Block>, k: nat)
    requires k < |cs| && Usable(cs[k])
    requires forall j :: 0 <= j < k ==> !Usable(cs[j])
    ensures FirstOutputText(cs) == cs[k].text.value
  {
    if k > 0 {
      assert !Usable(cs[0]);
      assert forall j :: 0 <= j < k - 1 ==> cs[1..][j] == cs[j + 1];
      FirstOutputTextAt(cs[1..], k - 1);
    }
  }

  /** Content fallback: a latest yielding `item.completed` without usable
      `text` gives the first usable `output_text` block, in forward order. */
  lemma ContentFallback(a: seq<Event>, e: Event, b: seq<Event>, k: nat)
    requires IsItemCompleted(e) && !Truthy(ItemOf(e).text)
    requires k < |ContentOf(ItemOf(e))| && Usable(ContentOf(ItemOf(e))[k])
    requires forall j :: 0 <= j < k ==> !Usable(ContentOf(ItemOf(e))[j])
    requires forall j :: 0 <= j < |b| ==> !Yields(b[j])
    ensures ResultOf(a + [e] + b) == ContentOf(ItemOf(e))[k].text.value
  {
    var cs := ContentOf(ItemOf(e));
    FirstOutputTextAt(cs, k);
    ResultEmptyIff(b);
    ResultAppend(a + [e], b);
    assert (a + [e])[..|a|] == a;
  }
}
