/**
 The recursive-descent validator (`json_validate_*`).

 The `Scan*` functions say where a construct that starts at a position ends; the methods
 walk the position in loops, as the loader does, and are proved to compute them.
 `JsonAcceptance` proves what the functions accept.
 */
module JsonValidator {
  import opened Decimals
  import opened JsonGrammar

  const MAX_DEPTH: nat := 64

  datatype Scan = Fail | At(pos: nat)

  // ----- Specification functions -----

  function SkipSpace(s: string, p: nat): (r: nat)
    requires p <= |s|
    ensures p <= r <= |s|
    decreases |s| - p
  {
    if p < |s| && IsSpace(s[p]) then SkipSpace(s, p + 1) else p
  }

  function SkipDigits(s: string, p: nat): (r: nat)
    requires p <= |s|
    ensures p <= r <= |s|
    decreases |s| - p
  {
    if p < |s| && IsDigit(s[p]) then SkipDigits(s, p + 1) else p
  }

  predicate FourHex(s: string, p: nat) {
    p + 4 <= |s| && IsHex(s[p]) && IsHex(s[p + 1]) && IsHex(s[p + 2]) && IsHex(s[p + 3])
  }

  /** From inside a string to just past its closing quote. */
  function ScanBody(s: string, p: nat): (r: Scan)
    ensures r.At? ==> p < r.pos <= |s|
    decreases |s| - p
  {
    if p >= |s| then Fail
    else if s[p] == '"' then At(p + 1)
    else if s[p] == '\\' then
      if p + 1 >= |s| then Fail
      else if s[p + 1] == 'u' then
        if FourHex(s, p + 2) then ScanBody(s, p + 6) else Fail
      else if IsEscape(s[p + 1], true) then ScanBody(s, p + 2)
      else Fail
    else if s[p] < ' ' then Fail
    else ScanBody(s, p + 1)
  }

  function ScanString(s: string, p: nat): (r: Scan)
    ensures r.At? ==> p < r.pos <= |s|
  {
    if p < |s| && s[p] == '"' then ScanBody(s, p + 1) else Fail
  }

  function ScanWhole(s: string, p: nat): (r: Scan)
    requires p <= |s|
    ensures r.At? ==> p < r.pos <= |s|
  {
    var i := if p < |s| && s[p] == '-' then p + 1 else p;
    if i >= |s| then Fail
    else if s[i] == '0' then At(i + 1)
    else if IsDigit(s[i]) then At(SkipDigits(s, i + 1))
    else Fail
  }

  function ScanFraction(s: string, p: nat): (r: Scan)
    requires p <= |s|
    ensures r.At? ==> p <= r.pos <= |s|
  {
    if p >= |s| || s[p] != '.' then At(p)
    else if p + 1 >= |s| || !IsDigit(s[p + 1]) then Fail
    else At(SkipDigits(s, p + 1))
  }

  function ScanExponent(s: string, p: nat): (r: Scan)
    requires p <= |s|
    ensures r.At? ==> p <= r.pos <= |s|
  {
    if p >= |s| || (s[p] != 'e' && s[p] != 'E') then At(p)
    else
      var i := if p + 1 < |s| && (s[p + 1] == '+' || s[p + 1] == '-') then p + 2 else p + 1;
      if i >= |s| || !IsDigit(s[i]) then Fail else At(SkipDigits(s, i))
  }

  function ScanNumber(s: string, p: nat): (r: Scan)
    requires p <= |s|
    ensures r.At? ==> p < r.pos <= |s|
  {
    var whole := ScanWhole(s, p);
    if whole.Fail? then Fail
    else
      var fraction := ScanFraction(s, whole.pos);
      if fraction.Fail? then Fail else ScanExponent(s, fraction.pos)
  }

  predicate Matches(s: string, p: nat, t: string) {
    p + |t| <= |s| && s[p..p + |t|] == t
  }

  function ScanLiteral(s: string, p: nat): (r: Scan)
    ensures r.At? ==> p < r.pos <= |s|
  {
    if Matches(s, p, "true") then At(p + 4)
    else if Matches(s, p, "false") then At(p + 5)
    else if Matches(s, p, "null") then At(p + 4)
    else Fail
  }

  /** A key, its colon and the blanks around the colon. */
  function ScanKey(s: string, p: nat): (r: Scan)
    ensures r.At? ==> p < r.pos <= |s|
  {
    var name := ScanString(s, p);
    if name.Fail? then Fail
    else
      var colon := SkipSpace(s, name.pos);
      if colon < |s| && s[colon] == ':' then At(SkipSpace(s, colon + 1)) else Fail
  }

  function ScanValue(s: string, p: nat, depth: nat): (r: Scan)
    ensures r.At? ==> p < r.pos <= |s|
    decreases |s| - p, 0
  {
    if depth > MAX_DEPTH || p >= |s| then Fail
    else if s[p] == '{' then ScanComposite(s, p, depth, true)
    else if s[p] == '[' then ScanComposite(s, p, depth, false)
    else if s[p] == '"' then ScanString(s, p)
    else if s[p] == '-' || IsDigit(s[p]) then ScanNumber(s, p)
    else ScanLiteral(s, p)
  }

  function ScanComposite(s: string, p: nat, depth: nat, isObject: bool): (r: Scan)
    requires p < |s|
    ensures r.At? ==> p < r.pos <= |s|
    decreases |s| - p - 1, 3
  {
    var q := SkipSpace(s, p + 1);
    if q < |s| && s[q] == CloseBracket(isObject) then At(q + 1) else ScanElems(s, q, depth, isObject)
  }

  /** One element, with its key in an object, and the blanks behind it. */
  function ScanElement(s: string, p: nat, depth: nat, isObject: bool): (r: Scan)
    ensures r.At? ==> p < r.pos <= |s|
    decreases |s| - p, 1
  {
    var start := if isObject then ScanKey(s, p) else At(p);
    if start.Fail? then Fail
    else
      var value := ScanValue(s, start.pos, depth + 1);
      if value.Fail? then Fail else At(SkipSpace(s, value.pos))
  }

  /** From the first character of an element to just past the closing bracket. */
  function ScanElems(s: string, p: nat, depth: nat, isObject: bool): (r: Scan)
    ensures r.At? ==> p < r.pos <= |s|
    decreases |s| - p, 2
  {
    var element := ScanElement(s, p, depth, isObject);
    if element.Fail? || element.pos >= |s| then Fail
    else if s[element.pos] == ',' then ScanElems(s, SkipSpace(s, element.pos + 1), depth, isObject)
    else if s[element.pos] == CloseBracket(isObject) then At(element.pos + 1)
    else Fail
  }

  predicate Accepts(s: string) {
    var value := ScanValue(s, SkipSpace(s, 0), 0);
    value.At? && SkipSpace(s, value.pos) == |s|
  }

  // ----- The validator's loops -----

  method SkipBlanks(s: string, position: nat) returns (p: nat)
    requires position <= |s|
    ensures p == SkipSpace(s, position)
  {
    p := position;
    while p < |s| && IsSpace(s[p])
      invariant position <= p <= |s| && SkipSpace(s, p) == SkipSpace(s, position)
    {
      p := p + 1;
    }
  }

  method ValidateString(s: string, position: nat) returns (valid: bool, p: nat)
    ensures (if valid then At(p) else Fail) == ScanString(s, position)
  {
    p, valid := position, false;
    if p >= |s| || s[p] != '"' {
      return;
    }
    p := p + 1;
    while p < |s| && !valid
      invariant position < p <= |s|
      invariant ScanBody(s, position + 1) == if valid then At(p) else ScanBody(s, p)
      decreases |s| - p
    {
      if s[p] == '"' {
        p, valid := p + 1, true;
      } else if s[p] == '\\' {
        if p + 1 >= |s| {
          return;
        }
        if s[p + 1] == 'u' {
          var digit, q := 0, p + 1;
          while digit < 4
            invariant 0 <= digit <= 4 && q == p + 1 + digit && q < |s|
            invariant forall k :: p + 2 <= k < p + 2 + digit ==> IsHex(s[k])
          {
            q := q + 1;
            if q >= |s| || !IsHex(s[q]) {
              assert !FourHex(s, p + 2);
              return;
            }
            digit := digit + 1;
          }
          p := q + 1;
        } else if !IsEscape(s[p + 1], true) {
          return;
        } else {
          p := p + 2;
        }
      } else if s[p] < ' ' {
        return;
      } else {
        p := p + 1;
      }
    }
  }

  method ConsumeDigits(s: string, position: nat) returns (p: nat)
    requires position <= |s|
    ensures p == SkipDigits(s, position)
  {
    p := position;
    while p < |s| && IsDigit(s[p])
      invariant position <= p <= |s| && SkipDigits(s, p) == SkipDigits(s, position)
    {
      p := p + 1;
    }
  }

  method ConsumeInteger(s: string, position: nat) returns (valid: bool, p: nat)
    requires position <= |s|
    ensures (if valid then At(p) else Fail) == ScanWhole(s, position)
  {
    p, valid := position, false;
    if p < |s| && s[p] == '-' {
      p := p + 1;
    }
    if p >= |s| {
      return;
    }
    if s[p] == '0' {
      p := p + 1;
    } else if '1' <= s[p] <= '9' {
      p := ConsumeDigits(s, p + 1);
    } else {
      return;
    }
    valid := true;
  }

  method ConsumeFraction(s: string, position: nat) returns (valid: bool, p: nat)
    requires position <= |s|
    ensures (if valid then At(p) else Fail) == ScanFraction(s, position)
  {
    p, valid := position, true;
    if p >= |s| || s[p] != '.' {
      return;
    }
    if p + 1 >= |s| || !IsDigit(s[p + 1]) {
      return false, p;
    }
    p := ConsumeDigits(s, p + 1);
  }

  method ConsumeExponent(s: string, position: nat) returns (valid: bool, p: nat)
    requires position <= |s|
    ensures (if valid then At(p) else Fail) == ScanExponent(s, position)
  {
    p, valid := position, true;
    if p >= |s| || (s[p] != 'e' && s[p] != 'E') {
      return;
    }
    p := p + 1;
    if p < |s| && (s[p] == '+' || s[p] == '-') {
      p := p + 1;
    }
    if p >= |s| || !IsDigit(s[p]) {
      return false, p;
    }
    p := ConsumeDigits(s, p);
  }

  method ValidateNumber(s: string, position: nat) returns (valid: bool, p: nat)
    requires position <= |s|
    ensures (if valid then At(p) else Fail) == ScanNumber(s, position)
  {
    valid, p := ConsumeInteger(s, position);
    if valid {
      valid, p := ConsumeFraction(s, p);
    }
    if valid {
      valid, p := ConsumeExponent(s, p);
    }
  }

  /** The name, colon and blanks that `json_validate_object` reads before each value. */
  method ValidateKey(s: string, position: nat) returns (valid: bool, p: nat)
    ensures (if valid then At(p) else Fail) == ScanKey(s, position)
  {
    valid, p := ValidateString(s, position);
    if valid {
      p := SkipBlanks(s, p);
      if p >= |s| || s[p] != ':' {
        return false, p;
      }
      p := SkipBlanks(s, p + 1);
    }
  }

  method ValidateElement(s: string, position: nat, depth: nat, isObject: bool) returns (valid: bool, p: nat)
    ensures (if valid then At(p) else Fail) == ScanElement(s, position, depth, isObject)
    decreases |s| - position, 1
  {
    p, valid := position, true;
    if isObject {
      valid, p := ValidateKey(s, p);
    }
    if valid {
      valid, p := ValidateValue(s, p, depth + 1);
    }
    if valid {
      p := SkipBlanks(s, p);
    }
  }

  /** `json_validate_array` and `json_validate_object`: the same loop with another element and bracket. */
  method ValidateComposite(s: string, position: nat, depth: nat, isObject: bool) returns (valid: bool, p: nat)
    requires position < |s|
    ensures (if valid then At(p) else Fail) == ScanComposite(s, position, depth, isObject)
    decreases |s| - position - 1, 2
  {
    hide ScanElement, SkipSpace;
    valid := false;
    p := SkipBlanks(s, position + 1);
    if p < |s| && s[p] == CloseBracket(isObject) {
      return true, p + 1;
    }
    ghost var end := ScanElems(s, p, depth, isObject);
    while p < |s| && !valid
      invariant position < p <= |s|
      invariant end == if valid then At(p) else ScanElems(s, p, depth, isObject)
      decreases |s| - p
    {
      var ok, q := ValidateElement(s, p, depth, isObject);
      if !ok {
        return;
      }
      if q < |s| && s[q] == ',' {
        p := SkipBlanks(s, q + 1);
      } else if q < |s| && s[q] == CloseBracket(isObject) {
        p, valid := q + 1, true;
      } else {
        return;
      }
    }
  }

  method ValidateLiteral(s: string, position: nat) returns (valid: bool, p: nat)
    requires position <= |s|
    ensures (if valid then At(p) else Fail) == ScanLiteral(s, position)
  {
    var literals, index := ["true", "false", "null"], 0;
    p, valid := position, false;
    while index < |literals| && !valid
      invariant 0 <= index <= |literals|
      invariant forall k :: 0 <= k < index - 1 ==> !Matches(s, position, literals[k])
      invariant !valid ==> p == position && (index > 0 ==> !Matches(s, position, literals[index - 1]))
      invariant valid ==> index > 0 && p == position + |literals[index - 1]| && Matches(s, position, literals[index - 1])
    {
      if |literals[index]| <= |s| - p && s[p..p + |literals[index]|] == literals[index] {
        p, valid := p + |literals[index]|, true;
      }
      index := index + 1;
    }
    assert literals[0] == "true" && literals[1] == "false" && literals[2] == "null";
  }

  method ValidateValue(s: string, position: nat, depth: nat) returns (valid: bool, p: nat)
    ensures (if valid then At(p) else Fail) == ScanValue(s, position, depth)
    decreases |s| - position, 0
  {
    p, valid := position, false;
    if depth > MAX_DEPTH || p >= |s| {
      return;
    }
    if s[p] == '{' || s[p] == '[' {
      valid, p := ValidateComposite(s, p, depth, s[p] == '{');
    } else if s[p] == '"' {
      valid, p := ValidateString(s, p);
    } else if s[p] == '-' || '0' <= s[p] <= '9' {
      valid, p := ValidateNumber(s, p);
    } else {
      valid, p := ValidateLiteral(s, p);
    }
  }

  method ValidateDocument(s: string) returns (valid: bool)
    ensures valid == Accepts(s)
  {
    var p := SkipBlanks(s, 0);
    valid, p := ValidateValue(s, p, 0);
    if valid {
      p := SkipBlanks(s, p);
      valid := p == |s|;
    }
  }
}
