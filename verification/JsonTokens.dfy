/**
 The flat tokenizer (`json_tokenize` and its helpers).

 `State` is the parser record: the used part of the token array, its capacity and the
 innermost open container. The functions specify one call each; the class fills an array
 in place and is proved to compute them.
 */
module JsonTokens {
  import opened Wrappers
  import opened JsonGrammar

  datatype Kind = ObjectToken | ArrayToken | StringToken | PrimitiveToken

  /** `parent` is None where the source stores SIZE_MAX. */
  datatype Token = Token(kind: Kind, start: nat, end: nat, childCount: nat, parent: Option<nat>)

  datatype State = State(tokens: seq<Token>, capacity: nat, parent: Option<nat>)

  predicate Valid(st: State) {
    && |st.tokens| <= st.capacity
    && (st.parent.Some? ==> st.parent.value < |st.tokens|)
    && forall i {:trigger st.tokens[i]} :: 0 <= i < |st.tokens| && st.tokens[i].parent.Some? ==> st.tokens[i].parent.value < i
  }

  /** The tokens once `n` children more are counted at `parent`. */
  function Bump(tokens: seq<Token>, parent: Option<nat>, n: nat): (r: seq<Token>)
    requires parent.Some? ==> parent.value < |tokens|
    ensures |r| == |tokens|
  {
    if parent.None? then tokens
    else tokens[parent.value := tokens[parent.value].(childCount := tokens[parent.value].childCount + n)]
  }

  function Allocate(st: State, kind: Kind, start: nat): (r: Option<State>)
    requires Valid(st)
    ensures r.Some? <==> |st.tokens| < st.capacity
    ensures r.Some? ==> Valid(r.value) && |r.value.tokens| == |st.tokens| + 1 && r.value.parent == st.parent
  {
    if |st.tokens| < st.capacity then
      Some(st.(tokens := Bump(st.tokens, st.parent, 1) + [Token(kind, start, 0, 0, st.parent)]))
    else None
  }

  function SetEnd(tokens: seq<Token>, i: nat, end: nat): seq<Token>
    requires i < |tokens|
  {
    tokens[i := tokens[i].(end := end)]
  }

  function SetLastEnd(st: State, end: nat): (r: State)
    requires Valid(st) && |st.tokens| > 0
    ensures Valid(r)
  {
    st.(tokens := SetEnd(st.tokens, |st.tokens| - 1, end))
  }

  function CloseOpen(st: State, kind: Kind, end: nat): (r: Option<State>)
    requires Valid(st)
    ensures r.Some? ==> Valid(r.value)
  {
    if st.parent.None? || st.tokens[st.parent.value].kind != kind then None
    else Some(State(SetEnd(st.tokens, st.parent.value, end + 1), st.capacity, st.tokens[st.parent.value].parent))
  }

  /** The closing quote of a string, looking only at backslashes, quotes and control characters. */
  function ClosingQuote(s: string, p: nat, escaped: bool): (r: Option<nat>)
    ensures r.Some? ==> p <= r.value < |s|
    decreases |s| - p
  {
    if p >= |s| then None
    else if escaped then ClosingQuote(s, p + 1, false)
    else if s[p] == '\\' then ClosingQuote(s, p + 1, true)
    else if s[p] == '"' then Some(p)
    else if s[p] < ' ' then None
    else ClosingQuote(s, p + 1, false)
  }

  function PrimitiveEnd(s: string, p: nat): (r: Option<nat>)
    requires p <= |s|
    ensures r.Some? ==> p <= r.value <= |s|
    decreases |s| - p
  {
    if p >= |s| || IsDelimiter(s[p]) then Some(p)
    else if s[p] < ' ' || s[p] == ':' then None
    else PrimitiveEnd(s, p + 1)
  }

  /** Failure, or the new state and the position of the last character used. */
  datatype Progress = Stop | Go(st: State, last: nat)

  function StringStep(s: string, p: nat, st: State): (r: Progress)
    requires Valid(st) && p < |s|
    ensures r.Go? ==> Valid(r.st) && p <= r.last < |s|
  {
    var added := Allocate(st, StringToken, p + 1);
    if added.None? then Stop
    else
      var quote := ClosingQuote(s, p + 1, false);
      if quote.None? then Stop else Go(SetLastEnd(added.value, quote.value), quote.value)
  }

  function PrimitiveStep(s: string, p: nat, st: State): (r: Progress)
    requires Valid(st) && p < |s|
    ensures r.Go? ==> Valid(r.st) && p <= r.last < |s|
  {
    var end := PrimitiveEnd(s, p);
    if end.None? || end.value == p then Stop
    else
      var added := Allocate(st, PrimitiveToken, p);
      if added.None? then Stop else Go(SetLastEnd(added.value, end.value), end.value - 1)
  }

  function OpenStep(p: nat, st: State, kind: Kind): (r: Progress)
    requires Valid(st)
    ensures r.Go? ==> Valid(r.st) && r.last == p
  {
    var added := Allocate(st, kind, p);
    if added.None? then Stop else Go(added.value.(parent := Some(|st.tokens|)), p)
  }

  function CloseStep(p: nat, st: State, kind: Kind): (r: Progress)
    requires Valid(st)
    ensures r.Go? ==> Valid(r.st) && r.last == p
  {
    var closed := CloseOpen(st, kind, p);
    if closed.None? then Stop else Go(closed.value, p)
  }

  function TokenizeAt(s: string, p: nat, st: State): (r: Progress)
    requires Valid(st) && p < |s|
    ensures r.Go? ==> Valid(r.st) && p <= r.last < |s|
  {
    if s[p] == '{' then OpenStep(p, st, ObjectToken)
    else if s[p] == '[' then OpenStep(p, st, ArrayToken)
    else if s[p] == '}' then CloseStep(p, st, ObjectToken)
    else if s[p] == ']' then CloseStep(p, st, ArrayToken)
    else if s[p] == '"' then StringStep(s, p, st)
    else if IsSpace(s[p]) || s[p] == ':' || s[p] == ',' then Go(st, p)
    else PrimitiveStep(s, p, st)
  }

  function TokenizeFrom(s: string, p: nat, st: State): (r: Option<State>)
    requires Valid(st)
    ensures r.Some? ==> Valid(r.value)
    decreases |s| - p
  {
    if p >= |s| then Some(st)
    else
      var step := TokenizeAt(s, p, st);
      if step.Stop? then None else TokenizeFrom(s, step.last + 1, step.st)
  }

  /** The tokens of a whole text, or None where `json_tokenize` returns false. */
  function Tokenize(s: string, capacity: nat): Option<seq<Token>> {
    var r := TokenizeFrom(s, 0, State([], capacity, None));
    if r.Some? && r.value.parent.None? && |r.value.tokens| > 0 && r.value.tokens[0].parent.None? then
      Some(r.value.tokens)
    else None
  }

  // ----- The tokenizer itself -----

  class Parser {
    const tokens: array<Token>
    var count: nat
    var currentParent: Option<nat>

    ghost function View(): State
      reads this, tokens
    {
      if count <= tokens.Length then State(tokens[..count], tokens.Length, currentParent)
      else State([], 0, None)
    }

    ghost predicate Ok()
      reads this, tokens
    {
      count <= tokens.Length && Valid(View())
    }

    constructor (capacity: nat)
      ensures Ok() && fresh(tokens) && View() == State([], capacity, None)
    {
      tokens := new Token[capacity](_ => Token(PrimitiveToken, 0, 0, 0, None));
      count, currentParent := 0, None;
    }

    /** The new index, or None on a full array (the source returns SIZE_MAX). */
    method AllocateToken(kind: Kind, start: nat) returns (index: Option<nat>)
      requires Ok()
      modifies this, tokens
      ensures Ok()
      ensures index.Some? <==> Allocate(old(View()), kind, start).Some?
      ensures index.Some? ==> index.value == old(count) && View() == Allocate(old(View()), kind, start).value
      ensures index.None? ==> View() == old(View())
    {
      index := None;
      if count < tokens.Length {
        index := Some(count);
        count := count + 1;
        tokens[index.value] := Token(kind, start, 0, 0, currentParent);
        if currentParent.Some? {
          var at := currentParent.value;
          tokens[at] := tokens[at].(childCount := tokens[at].childCount + 1);
        }
        assert View().tokens == Allocate(old(View()), kind, start).value.tokens;
      }
    }

    method EndToken(index: nat, end: nat)
      requires Ok() && index < count
      modifies tokens
      ensures Ok() && View() == old(View()).(tokens := SetEnd(old(View()).tokens, index, end))
    {
      tokens[index] := tokens[index].(end := end);
      assert View().tokens == SetEnd(old(View()).tokens, index, end);
    }

    method ParseString(s: string, position: nat) returns (ok: bool, last: nat)
      requires Ok() && position < |s|
      modifies this, tokens
      ensures Ok() && position <= last < |s|
      ensures ok == StringStep(s, position, old(View())).Go?
      ensures ok ==> StringStep(s, position, old(View())) == Go(View(), last)
    {
      ok, last := false, position;
      var index := AllocateToken(StringToken, position + 1);
      if index.None? {
        return;
      }
      var i, escaped := position + 1, false;
      ghost var added := View();
      while i < |s|
        invariant position < i <= |s| && !ok
        invariant Ok() && View() == added && count == index.value + 1
        invariant ClosingQuote(s, position + 1, false) == ClosingQuote(s, i, escaped)
      {
        if escaped {
          escaped := false;
        } else if s[i] == '\\' {
          escaped := true;
        } else if s[i] == '"' {
          EndToken(index.value, i);
          return true, i;
        } else if s[i] < ' ' {
          return;
        }
        i := i + 1;
      }
    }

    method ParsePrimitive(s: string, position: nat) returns (ok: bool, last: nat)
      requires Ok() && position < |s|
      modifies this, tokens
      ensures Ok() && position <= last < |s|
      ensures ok == PrimitiveStep(s, position, old(View())).Go?
      ensures ok ==> PrimitiveStep(s, position, old(View())) == Go(View(), last)
    {
      ok, last := false, position;
      var end := position;
      while end < |s| && !IsDelimiter(s[end])
        invariant position <= end <= |s|
        invariant PrimitiveEnd(s, position) == PrimitiveEnd(s, end)
      {
        if s[end] < ' ' || s[end] == ':' {
          return;
        }
        end := end + 1;
      }
      if end == position {
        return;
      }
      var index := AllocateToken(PrimitiveToken, position);
      if index.None? {
        return;
      }
      EndToken(index.value, end);
      return true, end - 1;
    }

    method CloseContainer(kind: Kind, end: nat) returns (ok: bool)
      requires Ok()
      modifies this, tokens
      ensures Ok()
      ensures ok == CloseOpen(old(View()), kind, end).Some?
      ensures ok ==> View() == CloseOpen(old(View()), kind, end).value
    {
      if currentParent.None? || tokens[currentParent.value].kind != kind {
        return false;
      }
      var current := currentParent.value;
      EndToken(current, end + 1);
      currentParent := tokens[current].parent;
      return true;
    }

    method TokenizeCharacter(s: string, position: nat) returns (ok: bool, last: nat)
      requires Ok() && position < |s|
      modifies this, tokens
      ensures Ok() && position <= last < |s|
      ensures ok == TokenizeAt(s, position, old(View())).Go?
      ensures ok ==> TokenizeAt(s, position, old(View())) == Go(View(), last)
    {
      hide StringStep, PrimitiveStep;
      var c := s[position];
      ok, last := true, position;
      if c == '{' || c == '[' {
        var index := AllocateToken(if c == '{' then ObjectToken else ArrayToken, position);
        if index.None? {
          return false, position;
        }
        currentParent := index;
      } else if c == '}' {
        ok := CloseContainer(ObjectToken, position);
      } else if c == ']' {
        ok := CloseContainer(ArrayToken, position);
      } else if c == '"' {
        ok, last := ParseString(s, position);
      } else if !(IsSpace(c) || c == ':' || c == ',') {
        ok, last := ParsePrimitive(s, position);
      }
    }

    method Run(s: string) returns (ok: bool)
      requires Ok() && count == 0 && currentParent.None?
      modifies this, tokens
      ensures Ok()
      ensures ok == Tokenize(s, tokens.Length).Some?
      ensures ok ==> Tokenize(s, tokens.Length) == Some(tokens[..count])
    {
      ok := true;
      var index := 0;
      ghost var start := View();
      while index < |s| && ok
        invariant index <= |s| && Ok()
        invariant ok ==> TokenizeFrom(s, 0, start) == TokenizeFrom(s, index, View())
        invariant !ok ==> TokenizeFrom(s, 0, start).None?
        decreases |s| - index, ok
      {
        hide TokenizeAt;
        ok, index := TokenizeCharacter(s, index);
        if ok {
          index := index + 1;
        }
      }
      if currentParent.Some? {
        ok := false;
      }
      return ok && count > 0 && tokens[0].parent.None?;
    }
  }
}
