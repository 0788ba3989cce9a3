/**
 * The streaming HTML text extractor (`SaxExtractor` in downloader.py).
 *
 * lxml's HTML parser drives the extractor with start-tag, end-tag and
 * character-data callbacks; here the parser is replaced by the sequence of
 * callbacks it would make (an `Event` list).  The extractor keeps a title
 * buffer, a body buffer, an "inside <title>" flag and a stack of open
 * ignore tags; character data is kept only while that stack is empty.
 */
module Extractor {
  import opened Strings

  /** Tags whose content is never extracted. */
  const IgnoreTags: set<string> := {"noscript", "meta", "input", "script", "style"}

  /** One callback of the HTML parser onto its target. */
  datatype Event =
    | Start(tag: string)
    | End(tag: string)
    | Data(data: string)
    | Comment(comment: string)
    | Doctype
    | Pi
    | Close

  /** The extractor's whole state, as a value. */
  datatype Sax = Sax(title: string, text: string, inTitle: bool, ignoreStack: seq<string>)

  /** A freshly constructed extractor. */
  const Initial: Sax := Sax("", "", false, [])

  /**
   * The pop loop of the end callback: entries are popped down to and
   * including the most recent `tag`, or all of them if there is none.
   */
  function PopUntil(stack: seq<string>, tag: string): seq<string>
    decreases |stack|
  {
    if stack == [] then []
    else if stack[|stack| - 1] == tag then stack[..|stack| - 1]
    else PopUntil(stack[..|stack| - 1], tag)
  }

  /** With a matching entry, exactly the entries from the most recent match upward are removed. */
  lemma {:induction false} PopUntilFound(stack: seq<string>, tag: string, i: nat)
    requires i < |stack| && stack[i] == tag
    requires forall j :: i < j < |stack| ==> stack[j] != tag
    ensures PopUntil(stack, tag) == stack[..i]
    decreases |stack|
  {
    if i < |stack| - 1 {
      var shorter := stack[..|stack| - 1];
      assert shorter[..i] == stack[..i];
      PopUntilFound(shorter, tag, i);
    }
  }

  /** Without a matching entry the whole stack is emptied. */
  lemma {:induction false} PopUntilMissing(stack: seq<string>, tag: string)
    requires tag !in stack
    ensures PopUntil(stack, tag) == []
    decreases |stack|
  {
    if stack != [] {
      var shorter := stack[..|stack| - 1];
      assert forall x :: x in shorter ==> x in stack;
      PopUntilMissing(shorter, tag);
    }
  }

  /** `data`: text goes to the title buffer, the body buffer, or nowhere. */
  function OnData(s: Sax, d: string): Sax
  {
    if s.ignoreStack != [] then s
    else if s.inTitle then s.(title := s.title + d)
    else s.(text := s.text + d)
  }

  /** `start`: push a (lower-cased) ignore tag; `<title>` opens the title. */
  function OnStart(s: Sax, tag: string): Sax
  {
    var t := Lower(tag);
    var pushed := if t in IgnoreTags then s.(ignoreStack := s.ignoreStack + [t]) else s;
    if t == "title" then pushed.(inTitle := true) else pushed
  }

  /** `end`: an ignore tag pops down to its most recent match; `</title>` closes the title. */
  function OnEnd(s: Sax, tag: string): Sax
  {
    var t := Lower(tag);
    var popped := if t in IgnoreTags then s.(ignoreStack := PopUntil(s.ignoreStack, t)) else s;
    if t == "title" then popped.(inTitle := false) else popped
  }

  /** The effect of one parser callback; comments, doctypes, processing instructions and close do nothing. */
  function Step(s: Sax, e: Event): Sax
  {
    match e
    case Start(tag) => OnStart(s, tag)
    case End(tag) => OnEnd(s, tag)
    case Data(d) => OnData(s, d)
    case _ => s
  }

  /** The state after a whole stream of callbacks. */
  function Run(s: Sax, events: seq<Event>): Sax
    decreases |events|
  {
    if events == [] then s else Run(Step(s, events[0]), events[1..])
  }

  /**
   * Character data reaches the title buffer iff no ignore tag is open and
   * the title is open, and the body buffer iff no ignore tag is open and
   * the title is closed; either way it is appended at the end.  Title text
   * inside an open ignore tag is dropped too.
   */
  lemma DataRouting(s: Sax, d: string)
    requires d != []
    ensures var r := Step(s, Data(d));
      && (r.title != s.title <==> s.ignoreStack == [] && s.inTitle)
      && (r.text != s.text <==> s.ignoreStack == [] && !s.inTitle)
      && (r.title == s.title || r.title == s.title + d)
      && (r.text == s.text || r.text == s.text + d)
      && r.inTitle == s.inTitle && r.ignoreStack == s.ignoreStack
  {
    var r := Step(s, Data(d));
    if r.title == s.title + d {
      assert |r.title| == |s.title| + |d|;
    }
    if r.text == s.text + d {
      assert |r.text| == |s.text| + |d|;
    }
  }

  /**
   * A start tag pushes its lower-cased name iff that name is an ignore tag,
   * and `<title>` (in any case) opens the title; the buffers do not change.
   */
  lemma StartSemantics(s: Sax, tag: string)
    ensures var r := Step(s, Start(tag));
      && (Lower(tag) in IgnoreTags ==> r.ignoreStack == s.ignoreStack + [Lower(tag)])
      && (Lower(tag) !in IgnoreTags ==> r.ignoreStack == s.ignoreStack)
      && r.inTitle == (Lower(tag) == "title" || s.inTitle)
      && r.title == s.title && r.text == s.text
  {
  }

  /**
   * An end tag of an ignore kind pops down to and including its most recent
   * match, or empties the stack when there is no match; any other end tag
   * leaves the stack alone.  `</title>` closes the title.
   */
  lemma {:induction false} EndSemantics(s: Sax, tag: string)
    ensures var r := Step(s, End(tag));
      var t := Lower(tag);
      && (t !in IgnoreTags ==> r.ignoreStack == s.ignoreStack)
      && (t in IgnoreTags && t !in s.ignoreStack ==> r.ignoreStack == [])
      && (t in IgnoreTags && t in s.ignoreStack ==>
            exists i :: 0 <= i < |s.ignoreStack| && s.ignoreStack[i] == t
              && (forall j :: i < j < |s.ignoreStack| ==> s.ignoreStack[j] != t)
              && r.ignoreStack == s.ignoreStack[..i])
      && r.inTitle == (t != "title" && s.inTitle)
      && r.title == s.title && r.text == s.text
  {
    var t := Lower(tag);
    if t in IgnoreTags {
      if t in s.ignoreStack {
        var i := LastIndexOf(s.ignoreStack, t);
        PopUntilFound(s.ignoreStack, t, i);
      } else {
        PopUntilMissing(s.ignoreStack, t);
      }
    }
  }

  /** The position of the most recent entry equal to `x`. */
  function LastIndexOf(stack: seq<string>, x: string): (i: nat)
    requires x in stack
    ensures i < |stack| && stack[i] == x
    ensures forall j :: i < j < |stack| ==> stack[j] != x
    decreases |stack|
  {
    if stack[|stack| - 1] == x then |stack| - 1
    else
      assert x in stack[..|stack| - 1] by {
        var k :| 0 <= k < |stack| && stack[k] == x;
        assert stack[..|stack| - 1][k] == x;
      }
      LastIndexOf(stack[..|stack| - 1], x)
  }

  /** Tag names are compared case-insensitively. */
  lemma CaseInsensitiveTags(s: Sax, a: string, b: string)
    requires Lower(a) == Lower(b)
    ensures Step(s, Start(a)) == Step(s, Start(b))
    ensures Step(s, End(a)) == Step(s, End(b))
  {
  }

  /** Feeding two streams one after the other is feeding their concatenation. */
  lemma {:induction false} RunConcat(s: Sax, a: seq<Event>, b: seq<Event>)
    ensures Run(s, a + b) == Run(Run(s, a), b)
    decreases |a|
  {
    if a != [] {
      assert (a + b)[0] == a[0];
      assert (a + b)[1..] == a[1..] + b;
      RunConcat(Step(s, a[0]), a[1..], b);
    } else {
      assert a + b == b;
    }
  }

  /**
   * The buffers only ever grow at their end: whatever was extracted so far
   * stays a prefix of the final title and text.
   */
  lemma {:induction false} BuffersOnlyGrow(s: Sax, events: seq<Event>)
    ensures StartsWith(Run(s, events).title, s.title)
    ensures StartsWith(Run(s, events).text, s.text)
    decreases |events|
  {
    if events != [] {
      var s1 := Step(s, events[0]);
      BuffersOnlyGrow(s1, events[1..]);
      assert StartsWith(s1.title, s.title) && StartsWith(s1.text, s.text) by {
        if events[0].Data? {
          assert (s.title + events[0].data)[..|s.title|] == s.title;
          assert (s.text + events[0].data)[..|s.text|] == s.text;
        }
      }
      var r := Run(s1, events[1..]);
      assert r.title[..|s1.title|][..|s.title|] == r.title[..|s.title|];
      assert r.text[..|s1.text|][..|s.text|] == r.text[..|s.text|];
    }
  }

  /**
   * Data is appended in document order: after any stream `events`, a
   * further `Data(d)` appends `d` to the body iff the state reached
   * accepts body text, and to the title iff it accepts title text.
   */
  lemma DataInOrder(s: Sax, events: seq<Event>, d: string)
    ensures var before := Run(s, events);
      var after := Run(s, events + [Data(d)]);
      && after.text == (if before.ignoreStack == [] && !before.inTitle then before.text + d else before.text)
      && after.title == (if before.ignoreStack == [] && before.inTitle then before.title + d else before.title)
  {
    RunConcat(s, events, [Data(d)]);
  }

  /**
   * Text that the decoding loop hands over in two chunks, and that the
   * parser therefore reports as two data callbacks, is extracted exactly
   * as if it had come in one piece.
   */
  lemma DataCoalesce(s: Sax, a: string, b: string)
    ensures Step(Step(s, Data(a)), Data(b)) == Step(s, Data(a + b))
  {
    assert s.title + a + b == s.title + (a + b);
    assert s.text + a + b == s.text + (a + b);
  }

  /** An end event that can shrink the ignore stack. */
  predicate ClosesIgnoreTag(e: Event)
  {
    e.End? && Lower(e.tag) in IgnoreTags
  }

  /**
   * Suppression: once an ignore tag is open, nothing reaches either buffer
   * until some end tag of an ignore kind is seen, and the open entries stay
   * at the bottom of the stack.
   */
  lemma {:induction false} SuppressedInsideIgnoreTag(s: Sax, events: seq<Event>)
    requires s.ignoreStack != []
    requires forall k :: 0 <= k < |events| ==> !ClosesIgnoreTag(events[k])
    ensures Run(s, events).text == s.text
    ensures Run(s, events).title == s.title
    ensures s.ignoreStack <= Run(s, events).ignoreStack
    decreases |events|
  {
    if events != [] {
      var s1 := Step(s, events[0]);
      assert !ClosesIgnoreTag(events[0]);
      assert s.ignoreStack <= s1.ignoreStack by {
        if events[0].Start? && Lower(events[0].tag) in IgnoreTags {
          assert (s.ignoreStack + [Lower(events[0].tag)])[..|s.ignoreStack|] == s.ignoreStack;
        }
      }
      SuppressedInsideIgnoreTag(s1, events[1..]);
      var r := Run(s1, events[1..]);
      assert r.ignoreStack[..|s1.ignoreStack|][..|s.ignoreStack|] == r.ignoreStack[..|s.ignoreStack|];
    }
  }

  /**
   * `<style><script>x</script></style>`: the data `x` reaches neither
   * buffer, and the extractor ends exactly where it started.
   */
  lemma NestedIgnoreTags(s: Sax, x: string)
    ensures Run(s, [Start("style"), Start("script"), Data(x), End("script"), End("style")]) == s
  {
    LowerOfLower("style");
    LowerOfLower("script");
    var s1 := Step(s, Start("style"));
    assert s1 == s.(ignoreStack := s.ignoreStack + ["style"]);
    var s2 := Step(s1, Start("script"));
    assert s2 == s.(ignoreStack := s.ignoreStack + ["style", "script"]);
    var s3 := Step(s2, Data(x));
    assert s3 == s2;
    var s4 := Step(s3, End("script"));
    assert (s.ignoreStack + ["style", "script"])[..|s.ignoreStack| + 1] == s.ignoreStack + ["style"];
    assert s4 == s1;
    var s5 := Step(s4, End("style"));
    assert (s.ignoreStack + ["style"])[..|s.ignoreStack|] == s.ignoreStack;
    assert s5 == s;
    var evs := [Start("style"), Start("script"), Data(x), End("script"), End("style")];
    assert evs[1..] == [Start("script"), Data(x), End("script"), End("style")];
    assert evs[2..] == [Data(x), End("script"), End("style")];
    assert evs[3..] == [End("script"), End("style")];
    assert evs[4..] == [End("style")];
    assert Run(s4, evs[4..]) == Run(s5, []);
    assert Run(s3, evs[3..]) == Run(s4, evs[4..]);
    assert Run(s2, evs[2..]) == Run(s3, evs[3..]);
    assert Run(s1, evs[1..]) == Run(s2, evs[2..]);
  }

  /** The extractor object: buffers, title flag and ignore stack, updated in place by the parser's callbacks. */
  class SaxExtractor {
    var title: string
    var text: string
    var inTitle: bool
    var ignoreStack: seq<string>

    /** The object's state as a value. */
    function State(): Sax
      reads this
    {
      Sax(title, text, inTitle, ignoreStack)
    }

    constructor ()
      ensures State() == Initial
    {
      title := "";
      text := "";
      inTitle := false;
      ignoreStack := [];
    }

    method OnDataEvent(d: string)
      modifies this
      ensures State() == Step(old(State()), Data(d))
    {
      if ignoreStack == [] {
        if inTitle {
          title := title + d;
        } else {
          text := text + d;
        }
      }
    }

    method OnStartEvent(tag: string)
      modifies this
      ensures State() == Step(old(State()), Start(tag))
    {
      var t := Lower(tag);
      if t in IgnoreTags {
        ignoreStack := ignoreStack + [t];
      }
      if t == "title" {
        inTitle := true;
      }
    }

    method OnEndEvent(tag: string)
      modifies this
      ensures State() == Step(old(State()), End(tag))
    {
      var t := Lower(tag);
      if t in IgnoreTags {
        var matched := false;
        while ignoreStack != [] && !matched
          invariant matched ==> ignoreStack == PopUntil(old(ignoreStack), t)
          invariant !matched ==> PopUntil(ignoreStack, t) == PopUntil(old(ignoreStack), t)
          invariant title == old(title) && text == old(text) && inTitle == old(inTitle)
          decreases |ignoreStack|
        {
          var top := ignoreStack[|ignoreStack| - 1];
          ignoreStack := ignoreStack[..|ignoreStack| - 1];
          matched := top == t;
        }
      }
      if t == "title" {
        inTitle := false;
      }
    }

    /** Dispatch of one parser callback; comment, doctype, pi and close are no-ops. */
    method Feed(e: Event)
      modifies this
      ensures State() == Step(old(State()), e)
    {
      match e
      case Start(tag) => OnStartEvent(tag);
      case End(tag) => OnEndEvent(tag);
      case Data(d) => OnDataEvent(d);
      case _ =>
    }
  }

  /**
   * `sax_html_parser` after decoding: feed every callback to a fresh
   * extractor, then read back its title and its text.
   */
  method Parse(events: seq<Event>) returns (title: string, text: string)
    ensures title == Run(Initial, events).title
    ensures text == Run(Initial, events).text
  {
    var sax := new SaxExtractor();
    var i := 0;
    while i < |events|
      invariant 0 <= i <= |events|
      invariant Run(Initial, events) == Run(sax.State(), events[i..])
    {
      assert events[i..][0] == events[i];
      assert events[i..][1..] == events[i + 1..];
      sax.Feed(events[i]);
      i := i + 1;
    }
    title, text := sax.title, sax.text;
  }
}
