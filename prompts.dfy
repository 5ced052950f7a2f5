/** Prompts: the table of automatic test responses, and `resolve_prompt`,
    which builds the menu of choices and picks one (from the test responses,
    the user, or "Cancel sync" when nobody is there). */
module Prompts {
  import opened Wrappers

  /** A compiled regular expression, seen only through its match predicate. */
  datatype Regex = Regex(isMatch: string -> bool)

  /** One entry of the test-response table: how many more prompts it may
      answer, which prompts it matches, and the answer. */
  datatype PromptResponse = PromptResponse(maxOccurrences: nat, regex: Regex, response: string)

  /** An entry that may answer `prompt`: it matches and has uses left. */
  predicate Usable(e: PromptResponse, prompt: string) {
    e.regex.isMatch(prompt) && e.maxOccurrences > 0
  }

  /** The index of the first usable entry for `prompt`. */
  function FirstUsable(entries: seq<PromptResponse>, prompt: string): (r: Option<nat>)
    ensures r.None? <==> forall i :: 0 <= i < |entries| ==> !Usable(entries[i], prompt)
    ensures r.Some? ==> r.value < |entries| && Usable(entries[r.value], prompt)
    ensures r.Some? ==> forall i :: 0 <= i < r.value ==> !Usable(entries[i], prompt)
    decreases |entries|
  {
    if entries == [] then None
    else if Usable(entries[0], prompt) then Some(0)
    else
      var r := FirstUsable(entries[1..], prompt);
      assert forall i :: 1 <= i < |entries| ==> entries[i] == entries[1..][i - 1];
      match r
      case None => None
      case Some(k) => Some(k + 1)
  }

  /** An entry with one use fewer. */
  function Used(e: PromptResponse): PromptResponse
    requires e.maxOccurrences > 0
  {
    e.(maxOccurrences := e.maxOccurrences - 1)
  }

  /** The number of answers the table can still give. */
  function Remaining(entries: seq<PromptResponse>): nat
    decreases |entries|
  {
    if entries == [] then 0 else entries[0].maxOccurrences + Remaining(entries[1..])
  }

  /** Using one entry lowers the number of answers left by exactly one. */
  lemma {:induction false} UsedLowersRemaining(entries: seq<PromptResponse>, k: nat)
    requires k < |entries| && entries[k].maxOccurrences > 0
    ensures Remaining(entries[k := Used(entries[k])]) == Remaining(entries) - 1
    decreases k
  {
    var after := entries[k := Used(entries[k])];
    if k > 0 {
      assert after[1..] == entries[1..][k - 1 := Used(entries[k])];
      UsedLowersRemaining(entries[1..], k - 1);
    } else {
      assert after[1..] == entries[1..];
    }
  }

  /** The test-response table `TestPromptResponses`, decremented in place
      as its entries are used. */
  class TestPromptResponses {
    var responses: seq<PromptResponse>

    constructor(responses: seq<PromptResponse>)
      ensures this.responses == responses
    {
      this.responses := responses;
    }

    /** `get_response`: the answer of the first usable entry, whose count
        goes down by one; no other entry changes. */
    method GetResponse(prompt: string) returns (r: Option<string>)
      modifies this
      ensures var k := FirstUsable(old(responses), prompt);
        && (k.None? ==> r.None? && responses == old(responses))
        && (k.Some? ==> r == Some(old(responses)[k.value].response)
                        && responses == old(responses)[k.value := Used(old(responses)[k.value])])
    {
      var i := 0;
      while i < |responses|
        invariant 0 <= i <= |responses|
        invariant responses == old(responses)
        invariant forall k :: 0 <= k < i ==> !Usable(responses[k], prompt)
      {
        var e := responses[i];
        if e.regex.isMatch(prompt) && e.maxOccurrences > 0 {
          responses := responses[i := e.(maxOccurrences := e.maxOccurrences - 1)];
          return Some(e.response);
        }
        i := i + 1;
      }
      return None;
    }
  }

  /** An answer that is returned leaves the table with one answer fewer; an
      entry whose count is zero is never the one used. */
  lemma ResponseUsesOneOccurrence(entries: seq<PromptResponse>, prompt: string)
    requires FirstUsable(entries, prompt).Some?
    ensures var k := FirstUsable(entries, prompt).value;
      && entries[k].maxOccurrences > 0
      && Remaining(entries[k := Used(entries[k])]) == Remaining(entries) - 1
  {
    UsedLowersRemaining(entries, FirstUsable(entries, prompt).value);
  }

  // ---------------------------------------------------------------------
  // resolve_prompt
  // ---------------------------------------------------------------------

  /** The choice for this occurrence and, for an "all occurrences" choice,
      the one to remember. */
  datatype ResolvePromptResult<B> = ResolvePromptResult(immediateBehaviour: B, rememberedBehaviour: Option<B>)

  function Once<B>(b: B): (r: ResolvePromptResult<B>)
    ensures r.immediateBehaviour == b && r.rememberedBehaviour.None?
  {
    ResolvePromptResult(b, None)
  }

  function Always<B>(b: B): (r: ResolvePromptResult<B>)
    ensures r.immediateBehaviour == b && r.rememberedBehaviour == Some(b)
  {
    ResolvePromptResult(b, Some(b))
  }

  const CancelLabel := "Cancel sync"
  const InvalidResponse := "Invalid response"

  /** The menu items are `options` (each twice, once and always, when
      `includeAlwaysVersions`), then "Cancel sync". */
  method PromptItems<B>(options: seq<(string, B)>, includeAlwaysVersions: bool, cancelBehaviour: B)
    returns (items: seq<(string, ResolvePromptResult<B>)>)
    ensures |items| == |options| * (if includeAlwaysVersions then 2 else 1) + 1
    ensures items[|items| - 1] == (CancelLabel, Once(cancelBehaviour))
    ensures includeAlwaysVersions ==> forall i :: 0 <= i < |options| ==>
      && items[2 * i] == (options[i].0 + " (just this occurence)", Once(options[i].1))
      && items[2 * i + 1] == (options[i].0 + " (all occurences)", Always(options[i].1))
    ensures !includeAlwaysVersions ==> forall i :: 0 <= i < |options| ==>
      items[i] == (options[i].0, Once(options[i].1))
  {
    items := [];
    var k := 0;
    while k < |options|
      invariant 0 <= k <= |options|
      invariant |items| == k * (if includeAlwaysVersions then 2 else 1)
      invariant includeAlwaysVersions ==> forall i :: 0 <= i < k ==>
        && items[2 * i] == (options[i].0 + " (just this occurence)", Once(options[i].1))
        && items[2 * i + 1] == (options[i].0 + " (all occurences)", Always(options[i].1))
      invariant !includeAlwaysVersions ==> forall i :: 0 <= i < k ==>
        items[i] == (options[i].0, Once(options[i].1))
    {
      var o := options[k];
      if includeAlwaysVersions {
        items := items + [(o.0 + " (just this occurence)", Once(o.1))];
        items := items + [(o.0 + " (all occurences)", Always(o.1))];
      } else {
        items := items + [(o.0, Once(o.1))];
      }
      k := k + 1;
    }
    items := items + [(CancelLabel, Once(cancelBehaviour))];
  }

  /** The position of the first item labelled `text`. */
  function LabelIndex<B>(items: seq<(string, ResolvePromptResult<B>)>, text: string): (r: Option<nat>)
    ensures r.None? <==> forall i :: 0 <= i < |items| ==> items[i].0 != text
    ensures r.Some? ==> r.value < |items| && items[r.value].0 == text
    ensures r.Some? ==> forall i :: 0 <= i < r.value ==> items[i].0 != text
    decreases |items|
  {
    if items == [] then None
    else if items[0].0 == text then Some(0)
    else
      var r := LabelIndex(items[1..], text);
      assert forall i :: 1 <= i < |items| ==> items[i] == items[1..][i - 1];
      match r
      case None => None
      case Some(k) => Some(k + 1)
  }

  /** Which item is chosen: the item labelled with the automatic response,
      if there is one (no such item is the "Invalid response" failure);
      otherwise the last item when the terminal is unattended or the user
      cancels (`userChoice` None); otherwise the item the user picked. */
  function ChooseItem<B>(items: seq<(string, ResolvePromptResult<B>)>, autoResponse: Option<string>,
                         attended: bool, userChoice: Option<nat>): (r: Result<ResolvePromptResult<B>, string>)
    requires items != []
    requires userChoice.Some? ==> userChoice.value < |items|
    ensures autoResponse.Some? ==> (r.Success? <==> exists i :: 0 <= i < |items| && items[i].0 == autoResponse.value)
    ensures autoResponse.Some? && r.Failure? ==> r.error == InvalidResponse
    ensures autoResponse.None? ==> r.Success?
    ensures autoResponse.None? && (!attended || userChoice.None?) ==> r.value == items[|items| - 1].1
    ensures autoResponse.None? && attended && userChoice.Some? ==> r.value == items[userChoice.value].1
  {
    match autoResponse
    case Some(answer) =>
      (match LabelIndex(items, answer)
       case Some(k) => Success(items[k].1)
       case None => Failure(InvalidResponse))
    case None =>
      if !attended then Success(items[|items| - 1].1)
      else
        match userChoice
        case Some(i) => Success(items[i].1)
        case None => Success(items[|items| - 1].1)
  }

  /** `resolve_prompt`: the menu, then the test-response table (which is
      used up by one answer when it has one), then the terminal. `attended`
      stands for whether a user is at the terminal and `userChoice` for what
      the menu returned (None when the user cancelled or it failed). The
      panic on an automatic response that names no item is the failure
      "Invalid response". */
  method ResolvePrompt<B>(prompt: string, options: seq<(string, B)>, includeAlwaysVersions: bool,
                          cancelBehaviour: B, testResponses: TestPromptResponses, attended: bool,
                          userChoice: Option<nat>)
    returns (r: Result<ResolvePromptResult<B>, string>)
    requires userChoice.Some? ==> userChoice.value <= |options| * (if includeAlwaysVersions then 2 else 1)
    modifies testResponses
    ensures var k := FirstUsable(old(testResponses.responses), prompt);
      var auto := if k.Some? then Some(old(testResponses.responses)[k.value].response) else None;
      var items := PromptItemsOf(options, includeAlwaysVersions, cancelBehaviour);
      r == ChooseItem(items, auto, attended, userChoice)
    ensures FirstUsable(old(testResponses.responses), prompt).None? && (!attended || userChoice.None?) ==>
      r == Success(Once(cancelBehaviour))
    ensures var k := FirstUsable(old(testResponses.responses), prompt);
      && (k.None? ==> testResponses.responses == old(testResponses.responses))
      && (k.Some? ==> testResponses.responses ==
                      old(testResponses.responses)[k.value := Used(old(testResponses.responses)[k.value])])
  {
    var items := PromptItems(options, includeAlwaysVersions, cancelBehaviour);
    PromptItemsAgree(options, includeAlwaysVersions, cancelBehaviour, items);
    var autoResponse := testResponses.GetResponse(prompt);
    var responseIdx: nat;
    if autoResponse.Some? {
      var k := LabelIndex(items, autoResponse.value);
      if k.None? {
        return Failure(InvalidResponse);
      }
      responseIdx := k.value;
    } else if !attended {
      responseIdx := |items| - 1;
    } else {
      responseIdx := if userChoice.Some? then userChoice.value else |items| - 1;
    }
    r := Success(items[responseIdx].1);
  }

  /** The menu as a value, built by the same rule as PromptItems. */
  function PromptItemsOf<B>(options: seq<(string, B)>, includeAlwaysVersions: bool, cancelBehaviour: B):
    (items: seq<(string, ResolvePromptResult<B>)>)
    ensures items != [] && items[|items| - 1] == (CancelLabel, Once(cancelBehaviour))
    ensures |items| == |options| * (if includeAlwaysVersions then 2 else 1) + 1
    decreases |options|
  {
    if options == [] then [(CancelLabel, Once(cancelBehaviour))]
    else
      var o := options[0];
      var head := if includeAlwaysVersions
        then [(o.0 + " (just this occurence)", Once(o.1)), (o.0 + " (all occurences)", Always(o.1))]
        else [(o.0, Once(o.1))];
      head + PromptItemsOf(options[1..], includeAlwaysVersions, cancelBehaviour)
  }

  /** The menu lists each option in order, once or as its "just this
      occurence" and "all occurences" pair, before "Cancel sync". */
  lemma {:induction false} PromptItemsContents<B>(options: seq<(string, B)>, includeAlwaysVersions: bool,
                                                  cancelBehaviour: B)
    ensures var items := PromptItemsOf(options, includeAlwaysVersions, cancelBehaviour);
      && (!includeAlwaysVersions ==>
            forall i :: 0 <= i < |options| ==> items[i] == (options[i].0, Once(options[i].1)))
      && (includeAlwaysVersions ==>
            forall i :: 0 <= i < |options| ==>
              && items[2 * i] == (options[i].0 + " (just this occurence)", Once(options[i].1))
              && items[2 * i + 1] == (options[i].0 + " (all occurences)", Always(options[i].1)))
    decreases |options|
  {
    if options != [] {
      PromptItemsContents(options[1..], includeAlwaysVersions, cancelBehaviour);
      var items := PromptItemsOf(options, includeAlwaysVersions, cancelBehaviour);
      var rest := PromptItemsOf(options[1..], includeAlwaysVersions, cancelBehaviour);
      if includeAlwaysVersions {
        assert items[2..] == rest;
        forall i | 1 <= i < |options|
          ensures items[2 * i] == rest[2 * (i - 1)] && items[2 * i + 1] == rest[2 * (i - 1) + 1]
          ensures options[i] == options[1..][i - 1]
        {
        }
      } else {
        assert items[1..] == rest;
        forall i | 1 <= i < |options|
          ensures items[i] == rest[i - 1] && options[i] == options[1..][i - 1]
        {
        }
      }
    }
  }

  /** A menu with PromptItems' contract is PromptItemsOf. */
  lemma {:induction false} PromptItemsAgree<B>(options: seq<(string, B)>, includeAlwaysVersions: bool,
                                               cancelBehaviour: B, items: seq<(string, ResolvePromptResult<B>)>)
    requires |items| == |options| * (if includeAlwaysVersions then 2 else 1) + 1
    requires items[|items| - 1] == (CancelLabel, Once(cancelBehaviour))
    requires includeAlwaysVersions ==> forall i :: 0 <= i < |options| ==>
      && items[2 * i] == (options[i].0 + " (just this occurence)", Once(options[i].1))
      && items[2 * i + 1] == (options[i].0 + " (all occurences)", Always(options[i].1))
    requires !includeAlwaysVersions ==> forall i :: 0 <= i < |options| ==>
      items[i] == (options[i].0, Once(options[i].1))
    ensures items == PromptItemsOf(options, includeAlwaysVersions, cancelBehaviour)
    decreases |options|
  {
    if options != [] {
      var w := if includeAlwaysVersions then 2 else 1;
      var rest := items[w..];
      assert includeAlwaysVersions ==> forall i :: 0 <= i < |options[1..]| ==>
        && rest[2 * i] == items[2 * (i + 1)] && rest[2 * i + 1] == items[2 * (i + 1) + 1];
      assert includeAlwaysVersions ==> forall i :: 0 <= i < |options[1..]| ==> options[1..][i] == options[i + 1];
      assert !includeAlwaysVersions ==> forall i :: 0 <= i < |options[1..]| ==>
        rest[i] == items[i + 1] && options[1..][i] == options[i + 1];
      PromptItemsAgree(options[1..], includeAlwaysVersions, cancelBehaviour, rest);
      if includeAlwaysVersions {
        assert items == [items[0], items[1]] + rest;
      } else {
        assert items == [items[0]] + rest;
      }
    } else {
      assert items == [items[0]];
    }
  }
}
