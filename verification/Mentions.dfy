/** The scanner for "@word" mentions in a message text. Offsets count bytes. */
module Mentions {
  import opened Prelude

  datatype Mention = Mention(displayName: Bytes, offset: nat, length: nat)

  /** A space or a newline; tabs and other white space belong to the word. */
  predicate Blank(c: byte) {
    c == 32 || c == 10
  }

  /** Whether a word may start at `i`. */
  predicate Edge(text: Bytes, i: nat)
    requires i <= |text|
  {
    i == 0 || Blank(text[i - 1])
  }

  /** `text[i..e]` is a whole word, of at least two bytes, that starts with '@'. */
  ghost predicate Token(text: Bytes, i: nat, e: nat) {
    && i + 2 <= e <= |text|
    && text[i] == 64 && Edge(text, i)
    && (forall k :: i <= k < e ==> !Blank(text[k]))
    && (e == |text| || Blank(text[e]))
  }

  ghost predicate Describes(text: Bytes, m: Mention) {
    && Token(text, m.offset, m.offset + m.length)
    && m.displayName == text[m.offset..m.offset + m.length]
  }

  predicate Ordered(ms: seq<Mention>) {
    forall k, l :: 0 <= k < l < |ms| ==> ms[k].offset < ms[l].offset
  }

  /** `ms` are exactly the words with '@' that start before `limit`, in order. */
  ghost predicate Lists(text: Bytes, ms: seq<Mention>, limit: nat) {
    && Ordered(ms)
    && (forall m <- ms :: Describes(text, m) && m.offset < limit)
    && (forall i: nat, e: nat :: i < limit && Token(text, i, e) ==> Mention(text[i..e], i, e - i) in ms)
  }

  method ParseMentions(text: Bytes) returns (mentions: seq<Mention>)
    ensures Lists(text, mentions, |text|)
  {
    mentions := [];
    var i := 0;
    while i < |text|
      invariant i <= |text| + 1
      invariant Lists(text, mentions, i)
      decreases |text| - i
    {
      if text[i] == 64 && (i == 0 || text[i - 1] == 32 || text[i - 1] == 10) {
        var start := i;
        var j := i + 1;
        while j < |text| && text[j] != 32 && text[j] != 10
          invariant start < j <= |text|
          invariant forall k :: start <= k < j ==> !Blank(text[k])
        {
          j := j + 1;
        }
        SkipsNothing(text, mentions, start, j);
        if j > start + 1 {
          mentions := mentions + [Mention(text[start..j], start, j - start)];
        }
        i := j;
      }
      i := i + 1;
    }
  }

  /** Jumping behind the word loses no candidate: inside it none starts, and the byte
      jumped over is a blank. */
  lemma SkipsNothing(text: Bytes, ms: seq<Mention>, start: nat, end: nat)
    requires Lists(text, ms, start)
    requires start < end <= |text| && text[start] == 64 && Edge(text, start)
    requires forall k :: start <= k < end ==> !Blank(text[k])
    requires end == |text| || Blank(text[end])
    ensures Lists(text, ms + if end > start + 1 then [Mention(text[start..end], start, end - start)] else [], end + 1)
  {
    var found := Mention(text[start..end], start, end - start);
    var after := ms + if end > start + 1 then [found] else [];
    assert end > start + 1 ==> Describes(text, found) && found in after;
    assert forall m <- after :: m in ms || (end > start + 1 && m == found);
    forall i: nat, e: nat | i < end + 1 && Token(text, i, e)
      ensures Mention(text[i..e], i, e - i) in after
    {
      if i >= start {
        OnlyWordHere(text, start, end, i, e);
      } else {
        assert Mention(text[i..e], i, e - i) in ms;
      }
    }
  }

  /** No other word with '@' starts between the first byte of a word and its end. */
  lemma OnlyWordHere(text: Bytes, start: nat, end: nat, i: nat, e: nat)
    requires start < end <= |text|
    requires forall k :: start <= k < end ==> !Blank(text[k])
    requires end == |text| || Blank(text[end])
    requires start <= i <= end && Token(text, i, e)
    ensures i == start && e == end
  {
    assert Edge(text, i);
  }

  /** Mentions never overlap or touch: at least one blank lies between two of them. */
  lemma MentionsApart(text: Bytes, ms: seq<Mention>, k: nat, l: nat)
    requires Lists(text, ms, |text|) && k < l < |ms|
    ensures ms[k].offset + ms[k].length < ms[l].offset
    ensures ms[l].offset + ms[l].length <= |text|
  {
    var m, n := ms[k], ms[l];
    assert m in ms && n in ms;
    assert Describes(text, m) && Describes(text, n);
    assert Edge(text, n.offset);
  }

  ghost predicate Within(a: seq<Mention>, b: seq<Mention>) {
    forall m <- a :: m in b
  }

  lemma LastIsLargest(a: seq<Mention>, b: seq<Mention>)
    requires Ordered(b) && Within(a, b) && a != []
    ensures b != [] && a[|a| - 1].offset <= b[|b| - 1].offset
  {
    assert a[|a| - 1] in a;
  }

  lemma FrontWithin(a: seq<Mention>, b: seq<Mention>)
    requires Ordered(a) && Within(a, b) && a != [] && b != [] && a[|a| - 1] == b[|b| - 1]
    ensures Within(a[..|a| - 1], b[..|b| - 1])
  {
    forall i | 0 <= i < |a| - 1
      ensures a[i] in b[..|b| - 1]
    {
      assert a[i] in a;
      var k :| 0 <= k < |b| && b[k] == a[i];
      assert a[i].offset < a[|a| - 1].offset;
    }
  }

  lemma {:induction false} OrderedByMembers(a: seq<Mention>, b: seq<Mention>)
    requires Ordered(a) && Ordered(b) && Within(a, b) && Within(b, a)
    ensures a == b
  {
    if a != [] || b != [] {
      if a != [] { LastIsLargest(a, b); }
      if b != [] { LastIsLargest(b, a); }
      SameLast(a, b);
      FrontWithin(a, b);
      FrontWithin(b, a);
      OrderedByMembers(a[..|a| - 1], b[..|b| - 1]);
      assert a == a[..|a| - 1] + [a[|a| - 1]] && b == b[..|b| - 1] + [b[|b| - 1]];
    }
  }

  lemma SameLast(a: seq<Mention>, b: seq<Mention>)
    requires a != [] && b != [] && Ordered(b) && Within(a, b)
    requires a[|a| - 1].offset == b[|b| - 1].offset
    ensures a[|a| - 1] == b[|b| - 1]
  {
    var x := a[|a| - 1];
    assert x in a;
    var k :| 0 <= k < |b| && b[k] == x;
  }

  /** The text determines the list: there is one answer, so the scanner finds it. */
  lemma MentionsDetermined(text: Bytes, a: seq<Mention>, b: seq<Mention>, limit: nat)
    requires Lists(text, a, limit) && Lists(text, b, limit)
    ensures a == b
  {
    SameMentions(text, a, b, limit);
    SameMentions(text, b, a, limit);
    OrderedByMembers(a, b);
  }

  lemma SameMentions(text: Bytes, a: seq<Mention>, b: seq<Mention>, limit: nat)
    requires Lists(text, a, limit) && Lists(text, b, limit)
    ensures Within(a, b)
  {
    forall m <- a
      ensures m in b
    {
      assert Describes(text, m);
      assert m == Mention(text[m.offset..m.offset + m.length], m.offset, m.offset + m.length - m.offset);
    }
  }
}
