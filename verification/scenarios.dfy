/**
 * Two end-to-end runs of the completer on a concrete field, driven through
 * the same methods a host would call: a mention completed with the keyboard,
 * and a keystroke dropped while a search is outstanding.
 */
module Scenarios {
  import opened Wrappers
  import opened Strategies
  import opened ListViews
  import Completers
  import TextcompleteFactory

  /** A stand-in for `/@(\w*)$/` on the one text these runs type: group 1 is the term. */
  function MentionPattern(text: string): Option<RegexMatch>
  {
    if text == "hello @al" then Some(RegexMatch(6, 9, [Some("@al"), Some("al")]))
    else if text == "hello @alb" then Some(RegexMatch(6, 10, [Some("@alb"), Some("alb")]))
    else None
  }

  function Mention(item: string): Replacement
  {
    Text("@" + item + " ")
  }

  function MentionOptions(): StrategyOptions<string>
  {
    StrategyOptions(MentionPattern, None, Mention, Some(1), None, false)
  }

  lemma MentionPatternIsValid()
    ensures ValidMatcher(MentionPattern)
  {
    forall text | MentionPattern(text).Some?
      ensures MatchesIn(MentionPattern(text).value, text)
    {
      if text == "hello @al" {
        assert text[6..9] == "@al";
      } else {
        assert text[6..10] == "@alb";
      }
    }
  }

  /** A completer over the mention strategy alone, in a consistent state. */
  ghost predicate Mentioning(c: Completers.Completer<string>)
    reads c, c.listView, c.lock, c.memo
  {
    && c.Valid()
    && |c.strategies| == 1
    && c.strategies[0] == TextcompleteFactory.Normalize(MentionOptions())
  }

  /** A completer for a field holding `value`, the caret at `caret`. */
  method NewMention(value: string, caret: nat) returns (c: Completers.Completer<string>)
    ensures fresh(c) && fresh(c.listView) && fresh(c.lock) && fresh(c.memo)
    ensures Mentioning(c) && c.value == value && c.caret == caret
    ensures c.term == Js.Undefined && c.inFlight.None? && !c.clearAtNext
    ensures c.listView.State() == Initial() && c.emitted == []
  {
    MentionPatternIsValid();
    c := TextcompleteFactory.Textcomplete(value, caret, [MentionOptions()]);
  }

  /** The key-up after "hello @al": the term "al" is searched and its callback is outstanding. */
  method TypeAl(c: Completers.Completer<string>)
    requires Mentioning(c) && c.value == "hello @al" && c.caret == 9
    requires c.term == Js.Undefined && c.inFlight.None? && !c.clearAtNext && c.listView.State() == Initial()
    modifies c, c.listView, c.lock, c.memo
    ensures Mentioning(c) && c.value == "hello @al" && c.caret == 9 && c.emitted == old(c.emitted)
    ensures c.term == Js.Str("al") && c.strategy == Some(0) && c.inFlight == Some(Completers.Pending((0, "al"), false))
    ensures !c.clearAtNext && c.listView.State() == Initial()
  {
    assert Js.Head("hello @al", 9) == "hello @al";
    assert c.strategies[0].pattern("hello @al") == Some(RegexMatch(6, 9, [Some("@al"), Some("al")]));
    assert Completers.ExtractSearchQuery(c.strategies, "hello @al") == Some(Query(0, Js.Str("al")));
    c.OnKeyup();
  }

  /** The search for "al" answers ["alice", "albert"] as its only batch: the list shows both, the first active. */
  method AnswerAl(c: Completers.Completer<string>)
    requires Mentioning(c) && c.strategy == Some(0) && c.inFlight == Some(Completers.Pending((0, "al"), false))
    requires !c.clearAtNext && c.listView.State() == Initial()
    modifies c, c.listView, c.lock, c.memo
    ensures Mentioning(c) && c.strategy == Some(0) && c.inFlight.None?
    ensures c.term == old(c.term) && c.value == old(c.value) && c.caret == old(c.caret) && c.emitted == old(c.emitted)
    ensures c.listView.State() == ListState(true, Some(["alice", "albert"]), Some(0), 10)
  {
    assert c.strategies[0].maxCount == 10;
    assert "alice" != "albert";
    assert ["alice", "albert"][1..] == ["albert"];
    assert Js.SliceTo(["alice", "albert"], 10) == ["alice", "albert"];
    assert Appended([], ["alice", "albert"], 10) == ["alice", "albert"];
    c.Deliver(["alice", "albert"], false);
  }

  /** DOWN, then ENTER: "albert" replaces "@al" and the list is hidden. */
  method PickSecond(c: Completers.Completer<string>)
    requires Mentioning(c) && c.strategy == Some(0) && c.value == "hello @al" && c.caret == 9
    requires c.listView.State() == ListState(true, Some(["alice", "albert"]), Some(0), 10)
    modifies c, c.listView
    ensures c.value == "hello @albert " && c.caret == 14 && !c.listView.shown
  {
    c.OnKeydown(DOWN);
    assert c.listView.index == Some(1);
    assert Js.Head("hello @al", 9) == "hello @al";
    assert c.strategies[0].pattern("hello @al") == Some(RegexMatch(6, 9, [Some("@al"), Some("al")]));
    c.OnKeydown(ENTER);
    assert "hello @al"[..6] + "@albert " + "hello @al"[9..] == "hello @albert ";
  }

  /**
   * "hello @al" with the caret at the end: the term "al" is searched, the
   * search answers ["alice", "albert"], the list shows both with the first
   * active, DOWN makes the second active, and ENTER rewrites the field to
   * "hello @albert " with the caret after the inserted text and the list hidden.
   */
  method CompleteMention() returns (value: string, caret: nat, shown: bool)
    ensures value == "hello @albert " && caret == 14 && !shown
  {
    var c := NewMention("hello @al", 9);
    TypeAl(c);
    AnswerAl(c);
    PickSecond(c);
    value, caret, shown := c.value, c.caret, c.listView.shown;
  }

  /** The key-up after "hello @alb" while the search for "al" holds the lock: the term changes, nothing is searched. */
  method TypeAlbWhileLocked(c: Completers.Completer<string>)
    requires Mentioning(c) && c.value == "hello @alb" && c.caret == 10 && c.term == Js.Str("al")
    requires c.strategy == Some(0) && c.inFlight == Some(Completers.Pending((0, "al"), false))
    requires !c.clearAtNext && c.listView.State() == Initial()
    modifies c, c.listView, c.lock, c.memo
    ensures Mentioning(c) && c.value == "hello @alb" && c.caret == 10 && c.term == Js.Str("alb")
    ensures c.strategy == Some(0) && c.inFlight == Some(Completers.Pending((0, "al"), false))
    ensures !c.clearAtNext && c.listView.State() == Initial()
  {
    assert Js.Head("hello @alb", 10) == "hello @alb";
    assert c.strategies[0].pattern("hello @alb") == Some(RegexMatch(6, 10, [Some("@alb"), Some("alb")]));
    assert Completers.ExtractSearchQuery(c.strategies, "hello @alb") == Some(Query(0, Js.Str("alb")));
    c.OnKeyup();
  }

  /** A key-up on "hello @alb" once the term is already "alb" starts nothing. */
  method KeyupAgain(c: Completers.Completer<string>)
    requires Mentioning(c) && c.value == "hello @alb" && c.caret == 10 && c.term == Js.Str("alb") && c.inFlight.None?
    modifies c, c.listView, c.lock, c.memo
    ensures c.inFlight.None?
  {
    assert Js.Head("hello @alb", 10) == "hello @alb";
    assert c.strategies[0].pattern("hello @alb") == Some(RegexMatch(6, 10, [Some("@alb"), Some("alb")]));
    assert Completers.ExtractSearchQuery(c.strategies, "hello @alb") == Some(Query(0, Js.Str("alb")));
    c.OnKeyup();
  }

  /**
   * A second keystroke made before the first search answers: its new term
   * is recorded but not searched, so the only search outstanding is still the
   * first one, and once it answers the same text raises no search either.
   */
  method DroppedKeystroke() returns (searched: Option<Completers.Pending>, again: Option<Completers.Pending>)
    ensures searched == Some(Completers.Pending((0, "al"), false))
    ensures again.None?
  {
    var c := NewMention("hello @al", 9);
    TypeAl(c);
    c.value, c.caret := "hello @alb", 10;
    TypeAlbWhileLocked(c);
    searched := c.inFlight;
    AnswerAl(c);
    KeyupAgain(c);
    again := c.inFlight;
  }
}
