/**
 * The canned-response table and the first-match rule that picks an entry
 * from it.
 */
module Responses {
  import opened Wrappers
  import opened Strings

  /**
   * The trigger phrases in declaration order. None of them looks like an
   * array index, so enumerating the object's keys visits them in this order.
   */
  const Keywords: seq<string> := [
    "manifest error",
    "work.ink blocked",
    "extender load",
    "stuck on bypassing",
    "failed session controller",
    "volcano key system",
    "volcano cooldown",
    "general fix"
  ]

  /** The reply for each trigger: `Replies[k]` is the value stored under `Keywords[k]`. */
  const Replies: seq<string> := [
    "Seriously? Did you even unzip the folder or just stare at it like a confused potato? Open the inner 'Luperly' folder, genius.",
    "Oh look, you broke it again. Clear cookies or go incognito, maybe next time use a brain.",
    "Maybe try Chrome? Or is that too advanced for you?",
    "Patience isn\U{2019}t your strong suit, huh? Wait for the update, or cry silently.",
    "Your PC is slow, obviously. Hard reload, only click the captcha, and try not to mess it up.",
    "Do NOT switch browsers, Captain Clueless. Follow the instructions like a normal human.",
    "Open the Cooldown Editor and adjust it yourself. Don\U{2019}t whine about it.",
    "Reinstall, remove everything else, enable incognito, open the link. It\U{2019}s literally not rocket science."
  ]

  /** Entry `k` is the earliest entry whose trigger occurs in `text`. */
  predicate IsFirstMatch(text: string, k: int) {
    0 <= k < |Keywords| && Contains(text, Keywords[k])
    && forall j :: 0 <= j < k ==> !Contains(text, Keywords[j])
  }

  /** The index of the first entry at or after `from` whose trigger occurs in `text`. */
  function FirstMatch(text: string, from: nat): (r: Option<nat>)
    ensures r.Some? ==> from <= r.value < |Keywords| && Contains(text, Keywords[r.value])
    ensures r.Some? ==> forall j :: from <= j < r.value ==> !Contains(text, Keywords[j])
    ensures r.None? ==> forall j :: from <= j < |Keywords| ==> !Contains(text, Keywords[j])
    decreases |Keywords| - from
  {
    if from >= |Keywords| then None
    else if Contains(text, Keywords[from]) then Some(from)
    else FirstMatch(text, from + 1)
  }

  /** The scan from the start finds an entry exactly when some trigger occurs, and then the earliest one. */
  lemma FirstMatchIsEarliest(text: string)
    ensures FirstMatch(text, 0).Some? <==> exists k :: 0 <= k < |Keywords| && Contains(text, Keywords[k])
    ensures FirstMatch(text, 0).Some? ==> IsFirstMatch(text, FirstMatch(text, 0).value)
    ensures forall k :: IsFirstMatch(text, k) ==> FirstMatch(text, 0) == Some(k)
  {
    forall k | IsFirstMatch(text, k)
      ensures FirstMatch(text, 0) == Some(k)
    {
      var r := FirstMatch(text, 0);
      assert r.Some?;
      assert !(r.value < k);
      assert !(k < r.value);
    }
  }

  /** Every trigger has its reply, and the eight written triggers are pairwise distinct, so none shadows another. */
  lemma TableShape()
    ensures |Keywords| == |Replies| == 8
    ensures forall j, k :: 0 <= j < k < |Keywords| ==> Keywords[j] != Keywords[k]
  {
  }
}
