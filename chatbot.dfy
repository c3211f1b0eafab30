/** The chat page: the rule that picks which prompt the backend builds from
    the words of a message, and the conversation state the page keeps while
    sending messages and starting new chats. */
module Chatbot {
  import opened Frames

  // ---------------------------------------------------------------------
  // Text

  /** The characters JavaScript's `trim` removes. */
  predicate IsSpace(c: char) {
    c == ' ' || c == '\t' || c == '\n' || c == '\r' || c == '\U{000B}' || c == '\U{000C}' ||
    c == '\U{00A0}' || c == '\U{1680}' || ('\U{2000}' <= c <= '\U{200A}') ||
    c == '\U{2028}' || c == '\U{2029}' || c == '\U{202F}' || c == '\U{205F}' ||
    c == '\U{3000}' || c == '\U{FEFF}'
  }

  predicate AllSpace(s: string) {
    forall k :: 0 <= k < |s| ==> IsSpace(s[k])
  }

  function TrimStart(s: string): (r: string)
    ensures |r| <= |s| && r == s[|s| - |r|..]
    ensures r == [] || !IsSpace(r[0])
  {
    if s != [] && IsSpace(s[0]) then TrimStart(s[1..]) else s
  }

  /** What `TrimStart` drops is whitespace. */
  lemma {:induction false} TrimStartDropsSpace(s: string)
    ensures AllSpace(s[..|s| - |TrimStart(s)|])
  {
    if s != [] && IsSpace(s[0]) {
      TrimStartDropsSpace(s[1..]);
      SpaceBefore(s, |s| - |TrimStart(s)|);
    }
  }

  /** A whitespace character followed by whitespace is whitespace. */
  lemma SpaceBefore(s: string, n: nat)
    requires 0 < n <= |s| && IsSpace(s[0]) && AllSpace(s[1..][..n - 1])
    ensures AllSpace(s[..n])
  {
    forall k | 1 <= k < n ensures IsSpace(s[k]) {
      assert s[k] == s[1..][..n - 1][k - 1];
    }
  }

  function TrimEnd(s: string): (r: string)
    ensures |r| <= |s| && r == s[..|r|]
    ensures r == [] || !IsSpace(r[|r| - 1])
  {
    if s != [] && IsSpace(s[|s| - 1]) then TrimEnd(s[..|s| - 1]) else s
  }

  /** What `TrimEnd` drops is whitespace. */
  lemma {:induction false} TrimEndDropsSpace(s: string)
    ensures AllSpace(s[|TrimEnd(s)|..])
  {
    if s != [] && IsSpace(s[|s| - 1]) {
      TrimEndDropsSpace(s[..|s| - 1]);
      SpaceAfter(s, |TrimEnd(s)|);
    }
  }

  /** Whitespace followed by a whitespace character is whitespace. */
  lemma SpaceAfter(s: string, n: nat)
    requires n < |s| && IsSpace(s[|s| - 1]) && AllSpace(s[..|s| - 1][n..])
    ensures AllSpace(s[n..])
  {
    forall k | n <= k < |s| - 1 ensures IsSpace(s[k]) {
      assert s[k] == s[..|s| - 1][n..][k - n];
    }
  }

  /** `String.prototype.trim`: the text between the leading and the trailing whitespace. */
  function Trim(s: string): (r: string)
    ensures r == [] || (!IsSpace(r[0]) && !IsSpace(r[|r| - 1]))
  {
    TrimEnd(TrimStart(s))
  }

  /** What trimming removes is whitespace on either side of the result. */
  lemma TrimSurroundings(s: string) returns (i: nat)
    ensures i + |Trim(s)| <= |s| && Trim(s) == s[i..i + |Trim(s)|]
    ensures AllSpace(s[..i]) && AllSpace(s[i + |Trim(s)|..])
  {
    TrimStartDropsSpace(s);
    TrimEndDropsSpace(TrimStart(s));
    i := Surround(s, TrimStart(s), Trim(s));
  }

  /** `r` sits inside `s` between two runs of whitespace when it is the front
      of `a` followed by whitespace, and `a` ends `s` after whitespace. */
  lemma Surround(s: string, a: string, r: string) returns (i: nat)
    requires |a| <= |s| && a == s[|s| - |a|..] && AllSpace(s[..|s| - |a|])
    requires |r| <= |a| && r == a[..|r|] && AllSpace(a[|r|..])
    ensures i + |r| <= |s| && r == s[i..i + |r|]
    ensures AllSpace(s[..i]) && AllSpace(s[i + |r|..])
  {
    i := |s| - |a|;
    assert s[i + |r|..] == a[|r|..];
  }

  /** Trimming again changes nothing. */
  lemma TrimIdempotent(s: string)
    ensures Trim(Trim(s)) == Trim(s)
  {
    var r := Trim(s);
    if r != [] {
      assert TrimStart(r) == r;
      assert TrimEnd(r) == r;
    }
  }

  /** Input that is all whitespace trims to nothing, and only such input does. */
  lemma TrimEmpty(s: string)
    ensures Trim(s) == [] <==> AllSpace(s)
  {
    TrimStartEmpty(s);
    var a := TrimStart(s);
    TrimEndDropsSpace(a);
    assert Trim(s) == [] ==> a[|TrimEnd(a)|..] == a;
    assert AllSpace(a) ==> a == [];
  }

  lemma {:induction false} TrimStartEmpty(s: string)
    ensures TrimStart(s) == [] <==> AllSpace(s)
  {
    if s != [] {
      if IsSpace(s[0]) {
        TrimStartEmpty(s[1..]);
        if AllSpace(s[1..]) {
          forall k | 1 <= k < |s| ensures IsSpace(s[k]) {
            assert s[k] == s[1..][k - 1];
          }
        }
      } else {
        assert !IsSpace(s[0]);
      }
    }
  }

  /** `String.prototype.toLowerCase` on one character, for the ASCII letters. */
  function LowerChar(c: char): (d: char)
    ensures 'A' <= c <= 'Z' ==> d as int == c as int + 32
    ensures !('A' <= c <= 'Z') ==> d == c
  {
    if 'A' <= c <= 'Z' then (c as int + 32) as char else c
  }

  function UpperChar(c: char): (d: char)
    ensures 'a' <= c <= 'z' ==> d as int == c as int - 32
    ensures !('a' <= c <= 'z') ==> d == c
  {
    if 'a' <= c <= 'z' then (c as int - 32) as char else c
  }

  function Lower(s: string): (r: string)
    ensures |r| == |s| && forall k :: 0 <= k < |s| ==> r[k] == LowerChar(s[k])
  {
    seq(|s|, k requires 0 <= k < |s| => LowerChar(s[k]))
  }

  function Upper(s: string): (r: string)
    ensures |r| == |s| && forall k :: 0 <= k < |s| ==> r[k] == UpperChar(s[k])
  {
    seq(|s|, k requires 0 <= k < |s| => UpperChar(s[k]))
  }

  /** `String.prototype.includes`: `w` occurs in `s` at some position. */
  predicate Contains(s: string, w: string) {
    exists i :: 0 <= i <= |s| - |w| && OccursAt(s, w, i)
  }

  predicate OccursAt(s: string, w: string, i: int)
    requires 0 <= i <= |s| - |w|
  {
    s[i..i + |w|] == w
  }

  // ---------------------------------------------------------------------
  // The prompt type

  /** The keywords the page looks for, in the order it checks them, with the
      prompt type each one selects. */
  const Keywords: seq<(string, string)> := [
    ("anomaly", "anomalies"),
    ("hypothesis", "hypothesis"),
    ("financial", "financials"),
    ("taapi", "taapi"),
    ("stock", "stock_data"),
    ("historical", "historical_features")
  ]

  const DefaultType: string := "overall_analysis"

  /** The prompt type of the first keyword of `keywords[from..]` that `s`
      contains, or the default when it contains none of them. */
  function FirstMatch(s: string, keywords: seq<(string, string)>, from: nat): (p: string)
    requires from <= |keywords|
    ensures p == DefaultType || exists k :: from <= k < |keywords| && p == keywords[k].1 && Contains(s, keywords[k].0)
    ensures (forall k :: from <= k < |keywords| ==> !Contains(s, keywords[k].0)) ==> p == DefaultType
    decreases |keywords| - from
  {
    if from == |keywords| then DefaultType
    else if Contains(s, keywords[from].0) then keywords[from].1
    else FirstMatch(s, keywords, from + 1)
  }

  /** The `promptType` chain of `handleKeyDown`, on the lower-cased input. */
  function PromptType(input: string): (p: string)
  {
    var lower := Lower(input);
    if Contains(lower, "anomaly") then "anomalies"
    else if Contains(lower, "hypothesis") then "hypothesis"
    else if Contains(lower, "financial") then "financials"
    else if Contains(lower, "taapi") then "taapi"
    else if Contains(lower, "stock") then "stock_data"
    else if Contains(lower, "historical") then "historical_features"
    else DefaultType
  }

  /** The chain picks the first keyword of the priority list the input
      contains, ignoring case. */
  lemma PromptTypeIsFirstKeyword(input: string)
    ensures PromptType(input) == FirstMatch(Lower(input), Keywords, 0)
  {
    var lower := Lower(input);
    assert FirstMatch(lower, Keywords, 6) == DefaultType;
    assert FirstMatch(lower, Keywords, 5) == if Contains(lower, "historical") then "historical_features" else DefaultType;
    assert FirstMatch(lower, Keywords, 4) == if Contains(lower, "stock") then "stock_data" else FirstMatch(lower, Keywords, 5);
    assert FirstMatch(lower, Keywords, 3) == if Contains(lower, "taapi") then "taapi" else FirstMatch(lower, Keywords, 4);
    assert FirstMatch(lower, Keywords, 2) == if Contains(lower, "financial") then "financials" else FirstMatch(lower, Keywords, 3);
    assert FirstMatch(lower, Keywords, 1) == if Contains(lower, "hypothesis") then "hypothesis" else FirstMatch(lower, Keywords, 2);
  }

  /** The default is chosen exactly when the input holds none of the keywords. */
  lemma DefaultWhenNoKeyword(input: string)
    ensures PromptType(input) == DefaultType <==>
      forall k :: 0 <= k < |Keywords| ==> !Contains(Lower(input), Keywords[k].0)
  {
    var lower := Lower(input);
    if PromptType(input) == DefaultType {
      forall k | 0 <= k < |Keywords| ensures !Contains(lower, Keywords[k].0) {
        assert k == 0 || k == 1 || k == 2 || k == 3 || k == 4 || k == 5;
      }
    } else {
      assert Contains(lower, Keywords[0].0) || Contains(lower, Keywords[1].0) || Contains(lower, Keywords[2].0) ||
        Contains(lower, Keywords[3].0) || Contains(lower, Keywords[4].0) || Contains(lower, Keywords[5].0);
    }
  }

  /** An earlier keyword wins over a later one whatever else the message says. */
  lemma AnomalyWins(input: string)
    requires Contains(Lower(input), "anomaly")
    ensures PromptType(input) == "anomalies"
  {
  }

  /** Letter case does not matter: upper-casing the input keeps its prompt type. */
  lemma PromptTypeIgnoresCase(input: string)
    ensures PromptType(Upper(input)) == PromptType(input)
  {
    assert Lower(Upper(input)) == Lower(input) by {
      forall k | 0 <= k < |input| ensures LowerChar(UpperChar(input[k])) == LowerChar(input[k]) {
        var c := input[k];
        if 'a' <= c <= 'z' {
          assert UpperChar(c) as int == c as int - 32;
          assert LowerChar(UpperChar(c)) as int == c as int;
        }
      }
    }
  }

  /** Surrounding whitespace does not change the prompt type. */
  lemma PromptTypeIgnoresPadding(input: string, pre: string, post: string)
    requires AllSpace(pre) && AllSpace(post)
    ensures PromptType(pre + input + post) == PromptType(input)
  {
    var lo := Lower(input);
    assert Lower(pre + input + post) == Lower(pre) + lo + Lower(post);
    ContainsPadded(pre, lo, post, "anomaly");
    ContainsPadded(pre, lo, post, "hypothesis");
    ContainsPadded(pre, lo, post, "financial");
    ContainsPadded(pre, lo, post, "taapi");
    ContainsPadded(pre, lo, post, "stock");
    ContainsPadded(pre, lo, post, "historical");
  }

  /** A word of lower-case letters occurs in padded text exactly when it occurs
      in the text: the padding is whitespace. */
  lemma ContainsPadded(pre: string, lo: string, post: string, w: string)
    requires AllSpace(pre) && AllSpace(post)
    requires w != [] && forall k :: 0 <= k < |w| ==> 'a' <= w[k] <= 'z'
    ensures Contains(Lower(pre) + lo + Lower(post), w) <==> Contains(lo, w)
  {
    var lp := Lower(pre) + lo + Lower(post);
    if Contains(lo, w) {
      var i :| 0 <= i <= |lo| - |w| && OccursAt(lo, w, i);
      MiddleSlice(Lower(pre), lo, Lower(post), i, |w|);
      assert OccursAt(lp, w, |pre| + i);
    }
    if Contains(lp, w) {
      var i :| 0 <= i <= |lp| - |w| && OccursAt(lp, w, i);
      KeywordInsidePadding(pre, lo, post, w, i);
    }
  }

  /** Lower-cased whitespace holds no lower-case letter. */
  lemma PaddingHasNoLetter(pad: string, lp: string, at: nat)
    requires AllSpace(pad) && at + |pad| <= |lp|
    requires forall k :: 0 <= k < |pad| ==> lp[at + k] == LowerChar(pad[k])
    ensures forall k :: at <= k < at + |pad| ==> !('a' <= lp[k] <= 'z')
  {
    forall k | at <= k < at + |pad| ensures !('a' <= lp[k] <= 'z') {
      assert lp[at + (k - at)] == LowerChar(pad[k - at]);
    }
  }

  /** A keyword found in padded input lies wholly inside the input. */
  lemma KeywordInsidePadding(pre: string, lo: string, post: string, w: string, i: int)
    requires AllSpace(pre) && AllSpace(post)
    requires w != [] && forall k :: 0 <= k < |w| ==> 'a' <= w[k] <= 'z'
    requires 0 <= i <= |Lower(pre) + lo + Lower(post)| - |w|
    requires (Lower(pre) + lo + Lower(post))[i..i + |w|] == w
    ensures Contains(lo, w)
  {
    KeywordBetweenPadding(pre, lo, post, w, i);
    var j := i - |pre|;
    MiddleSlice(Lower(pre), lo, Lower(post), j, |w|);
    assert OccursAt(lo, w, j);
  }

  /** The first and last letters of a keyword found in padded input fall
      inside the input. */
  lemma KeywordBetweenPadding(pre: string, lo: string, post: string, w: string, i: int)
    requires AllSpace(pre) && AllSpace(post)
    requires w != [] && forall k :: 0 <= k < |w| ==> 'a' <= w[k] <= 'z'
    requires 0 <= i <= |Lower(pre) + lo + Lower(post)| - |w|
    requires (Lower(pre) + lo + Lower(post))[i..i + |w|] == w
    ensures |pre| <= i && i + |w| <= |pre| + |lo|
  {
    var lp := Lower(pre) + lo + Lower(post);
    PaddingHasNoLetter(pre, lp, 0);
    PaddingHasNoLetter(post, lp, |pre| + |lo|);
    assert 'a' <= lp[i] <= 'z' by {
      assert lp[i] == w[0];
    }
    assert 'a' <= lp[i + |w| - 1] <= 'z' by {
      assert lp[i + |w| - 1] == w[|w| - 1];
    }
  }

  /** A slice inside the middle part of a concatenation is a slice of that part. */
  lemma MiddleSlice(a: string, b: string, c: string, i: nat, n: nat)
    requires i + n <= |b|
    ensures (a + b + c)[|a| + i..|a| + i + n] == b[i..i + n]
  {
    var abc := a + b + c;
    forall k | |a| <= k < |a| + |b|
      ensures abc[k] == b[k - |a|]
    {
    }
  }

  // ---------------------------------------------------------------------
  // The conversation

  datatype Sender = User | Bot

  datatype Message = Message(sender: Sender, text: string)

  /** The body of the request sent to the backend. */
  datatype Request = Request(promptType: string, ticker: string)

  const BackendError: string := "Error: Could not reach backend."

  /** The state of the chat page. */
  class ChatState {
    var messages: seq<Message>
    var inputText: string
    var hasStarted: bool

    /** Before the first message the greeting shows and the conversation is
        empty; after it, every exchange is a user message with trimmed,
        non-empty text followed by the backend's answer. */
    predicate Valid()
      reads this
    {
      (!hasStarted ==> messages == []) && Exchanges(messages)
    }

    constructor ()
      ensures Valid()
      ensures messages == [] && inputText == "" && !hasStarted
    {
      messages := [];
      inputText := "";
      hasStarted := false;
    }

    /** The text area's `onChange`. */
    method Type(text: string)
      requires Valid()
      modifies this
      ensures Valid()
      ensures inputText == text && messages == old(messages) && hasStarted == old(hasStarted)
    {
      inputText := text;
    }

    /** `handleKeyDown`. `reply` is the backend's answer, `None` when the
        request fails; the returned request is what was sent, if anything. */
    method HandleKeyDown(key: string, reply: Option<string>) returns (request: Option<Request>)
      requires Valid()
      modifies this
      ensures Valid()
      ensures key != "Enter" || Trim(old(inputText)) == [] ==>
        request == None && messages == old(messages) && inputText == old(inputText) && hasStarted == old(hasStarted)
      ensures key == "Enter" && Trim(old(inputText)) != [] ==>
        request == Some(Request(PromptType(old(inputText)), Trim(old(inputText)))) &&
        messages == old(messages) + [Message(User, Trim(old(inputText))), Message(Bot, Answer(reply))] &&
        inputText == "" && hasStarted
    {
      var text := Trim(inputText);
      if key != "Enter" || text == [] {
        return None;
      }
      request := Some(Request(PromptType(inputText), text));
      Post(text, Answer(reply));
    }

    /** The updates `handleKeyDown` makes once it sends: the user's message is
        shown, the input cleared and the greeting hidden; the backend's answer
        follows the user's message. */
    method Post(text: string, answer: string)
      requires Valid() && Trimmed(text)
      modifies this
      ensures Valid()
      ensures messages == old(messages) + [Message(User, text), Message(Bot, answer)]
      ensures inputText == "" && hasStarted
    {
      var before := messages;
      var user := Message(User, text);
      messages := before + [user];
      inputText := "";
      hasStarted := true;
      var bot := Message(Bot, answer);
      AppendTwo(before, user, bot);
      messages := messages + [bot];
      ExchangesExtend(before, text, answer);
    }

    /** The New Chat button. */
    method NewChat()
      requires Valid()
      modifies this
      ensures Valid()
      ensures messages == [] && inputText == "" && !hasStarted
    {
      messages := [];
      hasStarted := false;
      inputText := "";
    }
  }

  /** The messages pair up: each user message is followed by the backend's answer. */
  predicate Exchanges(messages: seq<Message>) {
    |messages| % 2 == 0 && forall k :: 0 <= k < |messages| ==> Exchange(messages, k)
  }

  /** Message `k` is in its place: users at even positions with trimmed,
      non-empty text, the backend at odd ones. */
  predicate Exchange(messages: seq<Message>, k: nat)
    requires k < |messages|
  {
    if k % 2 == 0 then messages[k].sender == User && Trimmed(messages[k].text)
    else messages[k].sender == Bot
  }

  /** Text with no whitespace at either end, and something in between. */
  predicate Trimmed(text: string) {
    text != [] && !IsSpace(text[0]) && !IsSpace(text[|text| - 1])
  }

  lemma AppendTwo<T>(s: seq<T>, x: T, y: T)
    ensures s + [x] + [y] == s + [x, y]
  {
  }

  /** Appending an exchange keeps every message in its place. */
  lemma ExchangesExtend(ms: seq<Message>, text: string, answer: string)
    requires Exchanges(ms) && Trimmed(text)
    ensures Exchanges(ms + [Message(User, text), Message(Bot, answer)])
  {
    var ext := ms + [Message(User, text), Message(Bot, answer)];
    forall k | 0 <= k < |ext| ensures Exchange(ext, k) {
      if k < |ms| {
        assert ext[k] == ms[k];
        assert Exchange(ms, k);
      }
    }
  }

  /** The text of the backend's message: its reply, or the fixed error text. */
  function Answer(reply: Option<string>): (text: string)
    ensures reply.Some? ==> text == reply.value
    ensures reply.None? ==> text == BackendError
  {
    if reply.Some? then reply.value else BackendError
  }
}
