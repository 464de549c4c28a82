/**
 The tolerant JSON parser in its own form: a cursor (`index`, `currentChar`) moved over `jsonString`
 and a stack of open containers. Every routine is proved to compute its counterpart in DirtyJsonSpec.
 */
module DirtyJson {
  import opened CodePoints
  import Spec = DirtyJsonSpec

  datatype Option<+T> = None | Some(value: T)

  datatype Try<+T> = Success(value: T) | Raise(error: Spec.PyError) {
    predicate IsFailure() { Raise? }
    function PropagateFailure<U>(): Try<U> requires Raise? { Raise(error) }
    function Extract(): T requires Success? { value }
  }

  lemma PrependTwice(s: Spec.Scan, a: Text, b: Text)
    ensures s.Prepend(b).Prepend(a) == s.Prepend(a + b)
  {
    assert a + (b + s.text) == a + b + s.text;
  }

  lemma PrependToNothing(s: Spec.Scan, a: Text)
    requires s.text == []
    ensures s.Prepend(a) == Spec.Scan(a, s.rest)
  {
    assert a + [] == a;
  }

  lemma PrependToEmpty(s: Spec.Scan)
    ensures s.Prepend([]) == s
  {
    assert [] + s.text == s.text;
  }

  lemma TripledByPeek(t: Text, next: Text)
    requires t != []
    requires next == if |t| <= 1 then [] else if |t| <= 3 then t[1..] else t[1..3]
    ensures next == [t[0], t[0]] <==> Spec.IsTripled(t, t[0])
  {
    if next == [t[0], t[0]] {
      assert t[1] == next[0] && t[2] == next[1];
    }
    if Spec.IsTripled(t, t[0]) {
      assert |next| == 2 && next[0] == t[1] && next[1] == t[2];
    }
  }

  lemma DropOne(t: Text)
    requires t != []
    ensures Drop(t, 1) == t[1..]
  {
  }

  lemma TakeOne(t: Text, i: nat)
    requires i < |t|
    ensures t[..i] + [t[i]] == t[..i + 1] && t[i..][0] == t[i] && Drop(t[i..], 1) == t[i + 1..]
  {
  }

  class Parser {
    var jsonString: Text
    var index: nat
    var currentChar: Option<int>
    var stack: seq<nat>
    // Python's memory: the dicts and lists built so far
    var heap: seq<Spec.Container>

    ghost predicate AtCursor()
      reads this
    {
      currentChar == if index < |jsonString| then Some(jsonString[index]) else None
    }

    ghost predicate Valid()
      reads this
    {
      AtCursor() && Memory().Wf()
    }

    ghost function Rest(): Text
      reads this
    {
      Drop(jsonString, index)
    }

    ghost function Memory(): Spec.Store
      reads this
    {
      Spec.Store(stack, heap)
    }

    constructor ()
      ensures Valid() && jsonString == [] && index == 0 && stack == [] && heap == []
    {
      jsonString, index, currentChar, stack, heap := [], 0, None, [], [];
    }

    lemma AtRest()
      requires AtCursor()
      ensures currentChar == if Rest() == [] then None else Some(Rest()[0])
    {
    }

    method Advance(count: nat := 1)
      modifies `index, `currentChar
      ensures AtCursor() && index == old(index) + count
      ensures Rest() == Drop(old(Rest()), count)
    {
      index := index + count;
      if index < |jsonString| {
        currentChar := Some(jsonString[index]);
      } else {
        currentChar := None;
      }
    }

    /** Up to `n` characters after the current one. */
    method Peek(n: nat) returns (result: Text)
      ensures result == if |Rest()| <= 1 then [] else if |Rest()| <= n + 1 then Rest()[1..] else Rest()[1..n + 1]
    {
      var peekIndex := index + 1;
      result := [];
      for i := 0 to n
        invariant peekIndex == index + 1 + |result|
        invariant |result| <= i
        invariant index < |jsonString| ==> peekIndex <= |jsonString| && result == jsonString[index + 1..peekIndex]
        invariant index >= |jsonString| ==> result == []
        invariant |result| < i ==> peekIndex >= |jsonString|
      {
        if peekIndex < |jsonString| {
          result := result + [jsonString[peekIndex]];
          peekIndex := peekIndex + 1;
        } else {
          break;
        }
      }
    }

    method SkipSingleLineComment()
      requires AtCursor()
      modifies `index, `currentChar
      ensures AtCursor() && index >= old(index) && Rest() == Spec.SkipLine(old(Rest()))
    {
      while currentChar.Some? && currentChar.value != NEWLINE
        invariant AtCursor() && index >= old(index)
        invariant Spec.SkipLine(Rest()) == Spec.SkipLine(old(Rest()))
        decreases |Rest()|
      {
        Advance();
      }
      if currentChar == Some(NEWLINE) {
        Advance();
      }
    }

    method SkipMultiLineComment()
      requires AtCursor()
      modifies `index, `currentChar
      ensures AtCursor() && index >= old(index) && Rest() == Spec.SkipBlock(Drop(old(Rest()), 2))
    {
      Advance(2);
      while currentChar.Some?
        invariant AtCursor() && index >= old(index)
        invariant Spec.SkipBlock(Rest()) == Spec.SkipBlock(Drop(old(Rest()), 2))
        decreases |Rest()|
      {
        var next := Peek(1);
        if currentChar.value == STAR && next == [SLASH] {
          Advance(2);
          return;
        }
        Advance();
      }
    }

    method SkipWhitespace()
      requires AtCursor()
      modifies `index, `currentChar
      ensures AtCursor() && index >= old(index) && Rest() == Spec.SkipTrivia(old(Rest()))
    {
      while currentChar.Some?
        invariant AtCursor() && index >= old(index)
        invariant Spec.SkipTrivia(Rest()) == Spec.SkipTrivia(old(Rest()))
        decreases |Rest()|
      {
        var next := Peek(1);
        if IsSpace(currentChar.value) {
          Advance();
        } else if currentChar.value == SLASH && next == [SLASH] {
          SkipSingleLineComment();
        } else if currentChar.value == SLASH && next == [STAR] {
          SkipMultiLineComment();
        } else {
          break;
        }
      }
    }

    method Match(word: Text) returns (matched: bool)
      requires AtCursor()
      requires word != [] && forall i :: 0 <= i < |word| ==> Lower(word[i]) == word[i]
      modifies `index, `currentChar
      ensures AtCursor() && index >= old(index)
      ensures matched == Spec.MatchesWord(old(Rest()), word)
      ensures Rest() == if matched then old(Rest())[|word|..] else old(Rest())
    {
      if currentChar.None? || Lower(currentChar.value) != word[0] {
        return false;
      }
      var remaining := |word| - 1;
      var next := Peek(remaining);
      if |next| == remaining && forall i :: 0 <= i < remaining ==> Lower(next[i]) == word[i + 1] {
        assert forall i :: 1 <= i < |word| ==> Rest()[i] == next[i - 1];
        Advance(|word|);
        return true;
      }
      assert |next| == remaining ==> forall i :: 0 <= i < remaining ==> Rest()[i + 1] == next[i];
      return false;
    }

    method ParseUnquotedKey() returns (result: Text)
      requires AtCursor()
      modifies `index, `currentChar
      ensures AtCursor() && index >= old(index)
      ensures Spec.Scan(result, Rest()) == Spec.UnquotedKey(old(Rest()))
    {
      result := [];
      hide IsSpace, Drop;
      PrependToEmpty(Spec.UnquotedKey(Rest()));
      while currentChar.Some? && !IsSpace(currentChar.value) && currentChar.value !in [COLON, COMMA, RBRACE, RBRACKET]
        invariant AtCursor() && index >= old(index)
        invariant Spec.UnquotedKey(Rest()).Prepend(result) == Spec.UnquotedKey(old(Rest()))
        decreases |Rest()|
      {
        AtRest();
        DropOne(Rest());
        PrependTwice(Spec.UnquotedKey(Rest()[1..]), result, [currentChar.value]);
        result := result + [currentChar.value];
        Advance();
      }
      AtRest();
      PrependToNothing(Spec.UnquotedKey(Rest()), result);
    }

    method ParseUnquotedString() returns (result: Text)
      requires AtCursor()
      modifies `index, `currentChar
      ensures AtCursor() && index >= old(index)
      ensures var body := Spec.UnquotedBody(old(Rest())); result == Strip(body.text) && Rest() == body.rest
    {
      var text := [];
      while currentChar.Some? && currentChar.value !in [COLON, COMMA, RBRACE, RBRACKET]
        invariant AtCursor() && index >= old(index)
        invariant Spec.UnquotedBody(Rest()).Prepend(text) == Spec.UnquotedBody(old(Rest()))
        decreases |Rest()|
      {
        PrependTwice(Spec.UnquotedBody(Rest()[1..]), text, [currentChar.value]);
        text := text + [currentChar.value];
        Advance();
      }
      PrependToNothing(Spec.UnquotedBody(Rest()), text);
      Advance();
      result := Strip(text);
    }

    method ParseString() returns (result: Text)
      requires AtCursor() && currentChar.Some?
      modifies `index, `currentChar
      ensures AtCursor() && index >= old(index)
      ensures Spec.Scan(result, Rest()) == Spec.ParseString(old(Rest()))
    {
      result := [];
      var quoteChar := currentChar.value;
      ghost var whole := Spec.ParseString(Rest());
      Advance();
      while currentChar.Some? && currentChar.value != quoteChar
        invariant AtCursor() && index >= old(index)
        invariant Spec.StringBody(Rest(), quoteChar).Prepend(result) == whole
        decreases |Rest()|
      {
        ghost var t := Rest();
        if currentChar.value == BACKSLASH {
          var done, piece := ParseEscape(quoteChar);
          if done {
            PrependToNothing(Spec.Scan([], Rest()), result + piece);
            assert Spec.StringBody(t, quoteChar) == Spec.Scan(piece, Rest());
            return result + piece;
          }
          PrependTwice(Spec.StringBody(Rest(), quoteChar), result, piece);
          result := result + piece;
        } else {
          PrependTwice(Spec.StringBody(t[1..], quoteChar), result, [currentChar.value]);
          result := result + [currentChar.value];
          Advance();
        }
      }
      PrependToNothing(Spec.StringBody(Rest(), quoteChar), result);
      if currentChar == Some(quoteChar) {
        Advance();
      }
    }

    /** The backslash branch of `_parse_string`: what it adds, and whether the string ends there. */
    method ParseEscape(ghost quoteChar: int) returns (done: bool, piece: Text)
      requires AtCursor() && currentChar == Some(BACKSLASH) && quoteChar != BACKSLASH
      modifies `index, `currentChar
      ensures AtCursor() && index > old(index) && |Rest()| < |old(Rest())|
      ensures Spec.StringBody(old(Rest()), quoteChar)
        == if done then Spec.Scan(piece, Rest()) else Spec.StringBody(Rest(), quoteChar).Prepend(piece)
    {
      hide Spec.AlnumRun, Spec.UnicodeEscape, Spec.EscapeValue;
      ghost var t := Rest();
      Advance();
      if currentChar.Some? && Spec.IsSimpleEscape(currentChar.value) {
        piece := [Spec.EscapeValue(currentChar.value)];
        Advance();
        return false, piece;
      } else if currentChar == Some(LOWER_U) {
        assert Rest()[1..] == t[2..];
        var collected, unicodeChar := CollectUnicode();
        ghost var n := Spec.AlnumRun(t[2..], 4);
        assert t[2..][..n] == t[2..2 + n] && t[2..][n..] == t[2 + n..];
        return !collected, if collected then Spec.UnicodeEscape(unicodeChar) else [BACKSLASH, LOWER_U] + unicodeChar;
      }
      Advance();
      PrependToEmpty(Spec.StringBody(Rest(), quoteChar));
      return false, [];
    }

    /** The `for _ in range(4)` loop of the `\u` escape. */
    method CollectUnicode() returns (collected: bool, unicodeChar: Text)
      requires AtCursor() && currentChar.Some?
      modifies `index, `currentChar
      ensures AtCursor() && index >= old(index)
      ensures var t := old(Rest())[1..]; var n := Spec.AlnumRun(t, 4);
        collected == (n == 4) && unicodeChar == t[..n] && Rest() == t[n..]
    {
      Advance();
      unicodeChar := [];
      ghost var t := Rest();
      ghost var n := Spec.AlnumRun(t, 4);
      hide Spec.AlnumRun, Drop;
      for i := 0 to 4
        invariant AtCursor() && index >= old(index)
        invariant i <= n && unicodeChar == t[..i] && Rest() == t[i..]
      {
        assert currentChar == if Rest() == [] then None else Some(Rest()[0]) by { AtRest(); }
        if currentChar.None? || !IsAlnum(currentChar.value) {
          assert t[i..] == [] || t[i..][0] == t[i];
          return false, unicodeChar;
        }
        TakeOne(t, i);
        unicodeChar := unicodeChar + [currentChar.value];
        Advance();
      }
      collected := true;
    }

    method ParseMultilineString() returns (result: Text)
      requires AtCursor() && currentChar.Some?
      modifies `index, `currentChar
      ensures AtCursor() && index >= old(index)
      ensures var body := Spec.MultilineBody(Drop(old(Rest()), 3), old(Rest())[0]);
        result == Strip(body.text) && Rest() == body.rest
    {
      var text := [];
      var quoteChar := currentChar.value;
      ghost var whole := Spec.MultilineBody(Drop(Rest(), 3), quoteChar);
      Advance(3);
      while currentChar.Some?
        invariant AtCursor() && index >= old(index)
        invariant Spec.MultilineBody(Rest(), quoteChar).Prepend(text) == whole
        decreases |Rest()|
      {
        var next := Peek(2);
        TripledByPeek(Rest(), next);
        if currentChar.value == quoteChar && next == [quoteChar, quoteChar] {
          PrependToNothing(Spec.MultilineBody(Rest(), quoteChar), text);
          Advance(3);
          return Strip(text);
        }
        PrependTwice(Spec.MultilineBody(Rest()[1..], quoteChar), text, [currentChar.value]);
        text := text + [currentChar.value];
        Advance();
      }
      PrependToNothing(Spec.MultilineBody(Rest(), quoteChar), text);
      result := Strip(text);
    }

    method ParseNumber() returns (r: Try<Spec.PyVal>)
      requires AtCursor()
      modifies `index, `currentChar
      ensures AtCursor() && index >= old(index)
      ensures var body := Spec.NumberBody(old(Rest()));
        && Rest() == body.rest
        && r == if Spec.IsIntLiteral(body.text) then Success(Spec.PyInt(Spec.IntValue(body.text)))
                else if Spec.IsFloatLiteral(body.text) then Success(Spec.PyFloat(body.text))
                else Raise(Spec.ValueError)
    {
      var numberStr := [];
      while currentChar.Some? && Spec.IsNumberChar(currentChar.value)
        invariant AtCursor() && index >= old(index)
        invariant Spec.NumberBody(Rest()).Prepend(numberStr) == Spec.NumberBody(old(Rest()))
        decreases |Rest()|
      {
        PrependTwice(Spec.NumberBody(Rest()[1..]), numberStr, [currentChar.value]);
        numberStr := numberStr + [currentChar.value];
        Advance();
      }
      PrependToNothing(Spec.NumberBody(Rest()), numberStr);
      if Spec.IsIntLiteral(numberStr) {
        return Success(Spec.PyInt(Spec.IntValue(numberStr)));
      }
      if Spec.IsFloatLiteral(numberStr) {
        return Success(Spec.PyFloat(numberStr));
      }
      return Raise(Spec.ValueError);
    }

    method ParseKey() returns (result: Text)
      requires AtCursor()
      modifies `index, `currentChar
      ensures AtCursor() && index >= old(index)
      ensures Spec.Scan(result, Rest()) == Spec.ParseKey(old(Rest()))
    {
      SkipWhitespace();
      if currentChar.Some? && currentChar.value in [DQUOTE, SQUOTE] {
        result := ParseString();
      } else {
        result := ParseUnquotedKey();
      }
    }

    method PopStack() returns (r: Try<()>)
      requires Valid()
      modifies `stack
      ensures Valid()
      ensures Agrees(r, Spec.Pop(Rest(), old(Memory())))
    {
      if stack == [] {
        return Raise(Spec.IndexError);
      }
      stack := stack[..|stack| - 1];
      return Success(());
    }

    /** The routine's outcome and the parser's new state are the ones `o` describes. */
    ghost predicate Agrees(r: Try<()>, o: Spec.Out)
      reads this
    {
      match o
      case Done(_, rest, k) => r.Success? && Rest() == rest && Memory() == k
      case Raised(e, rest) => r == Raise(e) && Rest() == rest
    }

    ghost predicate Returns(r: Try<Spec.PyVal>, o: Spec.Out)
      reads this
    {
      match o
      case Done(v, rest, k) => r == Success(v) && Rest() == rest && Memory() == k
      case Raised(e, rest) => r == Raise(e) && Rest() == rest
    }

    method StoreItem(key: Text, value: Spec.PyVal) returns (r: Try<()>)
      requires Valid()
      modifies `heap
      ensures Valid()
      ensures Agrees(r, Spec.SetItem(key, value, Rest(), old(Memory())))
    {
      if stack == [] {
        return Raise(Spec.IndexError);
      }
      var top := stack[|stack| - 1];
      match heap[top]
      case List(_) =>
        return Raise(Spec.TypeError);
      case Dict(entries) =>
        heap := heap[top := Spec.Dict(entries[key := value])];
        return Success(());
    }

    method AppendItem(value: Spec.PyVal) returns (r: Try<()>)
      requires Valid()
      modifies `heap
      ensures Valid()
      ensures Agrees(r, Spec.Append(value, Rest(), old(Memory())))
    {
      if stack == [] {
        return Raise(Spec.IndexError);
      }
      var top := stack[|stack| - 1];
      match heap[top]
      case Dict(_) =>
        return Raise(Spec.AttributeError);
      case List(items) =>
        heap := heap[top := Spec.List(items + [value])];
        return Success(());
    }

    method ParseObject() returns (r: Try<Spec.PyVal>)
      requires Valid()
      modifies `index, `currentChar, `stack, `heap
      ensures Valid() && index >= old(index)
      ensures Returns(r, WithValue(Spec.ObjectContent(Drop(old(Rest()), 1), old(Memory()).Push(Spec.Dict(map[]))), |old(heap)|))
      decreases |Rest()|, 1
    {
      var obj := |heap|;
      heap := heap + [Spec.Dict(map[])];
      Advance();
      stack := stack + [obj];
      var _ :- ParseObjectContent();
      return Success(Spec.PyRef(obj));
    }

    ghost function WithValue(o: Spec.Out, id: nat): Spec.Out {
      if o.Raised? then o else o.(v := Spec.PyRef(id))
    }

    method ParseArray() returns (r: Try<Spec.PyVal>)
      requires Valid()
      modifies `index, `currentChar, `stack, `heap
      ensures Valid() && index >= old(index)
      ensures Returns(r, WithValue(Spec.ArrayContent(Drop(old(Rest()), 1), old(Memory()).Push(Spec.List([]))), |old(heap)|))
      decreases |Rest()|, 1
    {
      var arr := |heap|;
      heap := heap + [Spec.List([])];
      Advance();
      stack := stack + [arr];
      var _ :- ParseArrayContent();
      return Success(Spec.PyRef(arr));
    }

    /** The middle of the object loop: a key, its value, and the store into the top container. */
    method ParseMember() returns (r: Try<()>)
      requires Valid() && currentChar.Some? && !Spec.OpensTrivia(Rest())
      modifies `index, `currentChar, `stack, `heap
      ensures Valid() && index >= old(index)
      ensures Agrees(r, Spec.Member(old(Rest()), old(Memory())))
      decreases |Rest()|, 3
    {
      hide Spec.SkipTrivia, Spec.ParseKey, Spec.ParseValue, Spec.SetItem;
      var key := ParseKey();
      var value := Spec.PyNone;
      SkipWhitespace();
      if currentChar == Some(COLON) {
        Advance();
        value :- ParseValue();
      } else if currentChar.None? {
        value := Spec.PyNone;
      } else {
        value :- ParseValue();
      }
      r := StoreItem(key, value);
    }

    ghost predicate Steps(r: Try<bool>, s: Spec.Step)
      reads this
    {
      match s
      case Again(rest, k) => r == Success(true) && Rest() == rest && Memory() == k
      case Leave(Done(_, rest, k)) => r == Success(false) && Rest() == rest && Memory() == k
      case Leave(Raised(e, rest)) => r == Raise(e) && Rest() == rest
    }

    /** The body of the object loop; true sends it round again. */
    method ObjectIteration() returns (r: Try<bool>)
      requires Valid() && currentChar.Some?
      modifies `index, `currentChar, `stack, `heap
      ensures Valid() && index >= old(index)
      ensures Steps(r, Spec.ObjectStep(old(Rest()), old(Memory())))
      decreases |Rest()|, 4
    {
      SkipWhitespace();
      if currentChar == Some(RBRACE) {
        r := CloseObject();
        return;
      }
      if currentChar.None? {
        var _ :- PopStack();
        return Success(false);
      }
      var _ :- ParseMember();
      SkipWhitespace();
      r := AfterMember();
    }

    /** At the closing brace; `}}` counts as one. */
    method CloseObject() returns (r: Try<bool>)
      requires Valid() && currentChar == Some(RBRACE)
      modifies `index, `currentChar, `stack
      ensures Valid() && index >= old(index)
      ensures Steps(r, Spec.Leave(Spec.Pop(Spec.AfterBrace(old(Rest())), old(Memory()))))
    {
      var next := Peek(1);
      if next == [RBRACE] {
        Advance(2);
      } else {
        Advance();
      }
      var _ :- PopStack();
      return Success(false);
    }

    /** What follows a member: a comma, the end of input, or more of the object. */
    method AfterMember() returns (r: Try<bool>)
      requires Valid()
      modifies `index, `currentChar, `stack
      ensures Valid() && index >= old(index)
      ensures Steps(r, Spec.AfterMember(old(Rest()), old(Memory())))
    {
      if currentChar == Some(COMMA) {
        Advance();
      } else if currentChar.None? {
        var _ :- PopStack();
        return Success(false);
      }
      return Success(true);
    }

    method ParseObjectContent() returns (r: Try<()>)
      requires Valid()
      modifies `index, `currentChar, `stack, `heap
      ensures Valid() && index >= old(index)
      ensures Agrees(r, Spec.ObjectContent(old(Rest()), old(Memory())))
      decreases |Rest()|, if Rest() == [] then 0 else 5
    {
      while currentChar.Some?
        invariant Valid() && index >= old(index) && |Rest()| <= |old(Rest())|
        invariant Spec.ObjectContent(Rest(), Memory()) == Spec.ObjectContent(old(Rest()), old(Memory()))
        decreases |Rest()|
      {
        var again :- ObjectIteration();
        if !again {
          return Success(());
        }
      }
      return Success(());
    }

    /** The body of the array loop; true sends it round again. */
    method ArrayIteration() returns (r: Try<bool>)
      requires Valid() && currentChar.Some?
      modifies `index, `currentChar, `stack, `heap
      ensures Valid() && index >= old(index)
      ensures Steps(r, Spec.ArrayStep(old(Rest()), old(Memory())))
      decreases |Rest()|, 4
    {
      hide Spec.ParseValue, Spec.AfterElement;
      SkipWhitespace();
      if currentChar == Some(RBRACKET) {
        Advance();
        var _ :- PopStack();
        return Success(false);
      }
      var value :- ParseValue();
      var _ :- AppendItem(value);
      SkipWhitespace();
      r := AfterElement();
    }

    /** What follows an element: a comma, the closing bracket, or the end of the array. */
    method AfterElement() returns (r: Try<bool>)
      requires Valid()
      modifies `index, `currentChar, `stack
      ensures Valid() && index >= old(index)
      ensures Steps(r, Spec.AfterElement(old(Rest()), old(Memory())))
    {
      hide Spec.SkipTrivia, Spec.Pop;
      if currentChar == Some(COMMA) {
        Advance();
        SkipWhitespace();
        if currentChar.None? || currentChar == Some(RBRACKET) {
          if currentChar == Some(RBRACKET) {
            Advance();
          }
          var _ :- PopStack();
          return Success(false);
        }
      } else if currentChar != Some(RBRACKET) {
        var _ :- PopStack();
        return Success(false);
      }
      return Success(true);
    }

    method ParseArrayContent() returns (r: Try<()>)
      requires Valid()
      modifies `index, `currentChar, `stack, `heap
      ensures Valid() && index >= old(index)
      ensures Agrees(r, Spec.ArrayContent(old(Rest()), old(Memory())))
      decreases |Rest()|, if Rest() == [] then 0 else 5
    {
      while currentChar.Some?
        invariant Valid() && index >= old(index) && |Rest()| <= |old(Rest())|
        invariant Spec.ArrayContent(Rest(), Memory()) == Spec.ArrayContent(old(Rest()), old(Memory()))
        decreases |Rest()|
      {
        var again :- ArrayIteration();
        if !again {
          return Success(());
        }
      }
      return Success(());
    }

    method ParseValue() returns (r: Try<Spec.PyVal>)
      requires Valid()
      modifies `index, `currentChar, `stack, `heap
      ensures Valid() && index >= old(index)
      ensures Returns(r, Spec.ParseValue(old(Rest()), old(Memory())))
      decreases |Rest()|, 2
    {
      hide Spec.SkipTrivia, Spec.ParseScalar, Spec.ObjectContent, Spec.ArrayContent;
      SkipWhitespace();
      if currentChar == Some(LBRACE) {
        var next := Peek(1);
        if next == [LBRACE] {
          Advance(2);
        }
        r := ParseObject();
        return;
      } else if currentChar == Some(LBRACKET) {
        r := ParseArray();
        return;
      }
      if currentChar.None? {
        return Success(Spec.PyNone);
      }
      r := ParseScalar();
    }

    /** The branches of `_parse_value` for everything but objects and arrays. */
    method ParseScalar() returns (r: Try<Spec.PyVal>)
      requires Valid() && currentChar.Some?
      modifies `index, `currentChar
      ensures Valid() && index >= old(index)
      ensures Returns(r, Spec.ParseScalar(old(Rest()), old(Memory())))
    {
      hide Spec.StringBody, Spec.MultilineBody, Spec.UnquotedBody, Spec.WordLength, Spec.WordValue, Strip;
      if currentChar.value in [DQUOTE, SQUOTE, BACKTICK] {
        var next := Peek(2);
        TripledByPeek(Rest(), next);
        var text;
        if next == [currentChar.value, currentChar.value] {
          text := ParseMultilineString();
        } else {
          text := ParseString();
        }
        return Success(Spec.PyStr(text));
      } else if IsDigit(currentChar.value) || currentChar.value in [MINUS, PLUS] {
        r := ParseNumber();
        return;
      }
      var matched, word := ParseWord();
      if matched { return Success(word); }
      var text := ParseUnquotedString();
      return Success(Spec.PyStr(text));
    }

    method ParseWord() returns (matched: bool, word: Spec.PyVal)
      requires AtCursor()
      modifies `index, `currentChar
      ensures AtCursor() && index >= old(index)
      ensures matched == (Spec.WordLength(old(Rest())) > 0)
      ensures Rest() == old(Rest())[Spec.WordLength(old(Rest()))..]
      ensures matched ==> word == Spec.WordValue(old(Rest()))
    {
      word := Spec.PyNone;
      matched := Match(TRUE_WORD);
      if matched { return true, Spec.PyBool(true); }
      matched := Match(FALSE_WORD);
      if matched { return true, Spec.PyBool(false); }
      matched := Match(NULL_WORD);
      if !matched { matched := Match(UNDEFINED_WORD); }
    }

    method GetStartPos(inputStr: Text) returns (i: nat)
      ensures i == Spec.StartPos(inputStr)
    {
      var chars := [LBRACE, LBRACKET, DQUOTE];
      var best := -1;
      for n := 0 to |chars|
        invariant n == 0 ==> best == -1
        invariant n == 1 ==> best == Spec.FindChar(inputStr, LBRACE)
        invariant n == 2 ==> best == Spec.Earlier(Spec.FindChar(inputStr, LBRACE), Spec.FindChar(inputStr, LBRACKET))
        invariant n == 3 ==> best == Spec.Earlier(Spec.Earlier(Spec.FindChar(inputStr, LBRACE), Spec.FindChar(inputStr, LBRACKET)), Spec.FindChar(inputStr, DQUOTE))
        invariant -1 <= best
      {
        best := Spec.Earlier(best, Spec.FindChar(inputStr, chars[n]));
      }
      return if best < 0 then 0 else best;
    }

    /** `parse`: the outcome, and the containers it leaves, are those of the specification. */
    method Parse(s: Text) returns (r: Try<Spec.PyVal>)
      modifies this
      ensures Valid() && jsonString == s
      ensures match Spec.Parse(s)
        case Done(v, rest, k) => r == Success(v) && Memory() == k && (s != [] ==> Rest() == rest)
        case Raised(e, rest) => r == Raise(e) && Rest() == rest
      ensures s != [] ==> index >= Spec.StartPos(s)
    {
      jsonString, index, currentChar, stack, heap := s, 0, None, [], [];
      if s == [] {
        return Success(Spec.PyNone);
      }
      index := GetStartPos(jsonString);
      // the source's second bounds check can never fire
      assert index < |jsonString|;
      currentChar := Some(jsonString[index]);
      r := ParseValue();
    }
  }
}
