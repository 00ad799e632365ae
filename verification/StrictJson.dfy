/** The strict reader itself: a cursor over the source, moved by loops, proved to read exactly
    the grammar of Json.dfy within the reader's bounds.  None stands for a thrown error. */
module StrictJsonReader {
  import opened Strings
  import opened Wrappers
  import opened Json

  /** The text from the cursor on. */
  function Rest(source: Text, i: nat): Text
    requires i <= |source|
  {
    source[i..]
  }

  /** The text after its first character. */
  function Tail(t: Text): Text
    requires |t| > 0
  {
    t[1..]
  }

  lemma RestStep(source: Text, i: nat)
    requires i < |source|
    ensures |Rest(source, i)| == |source| - i
    ensures Rest(source, i)[0] == source[i]
    ensures Rest(source, i)[1..] == Tail(Rest(source, i)) == Rest(source, i + 1)
  {}

  lemma RestEnd(source: Text, i: nat)
    requires i <= |source|
    ensures |Rest(source, i)| == |source| - i
    ensures i < |source| ==>
      Rest(source, i)[0] == source[i] && Rest(source, i)[1..] == Tail(Rest(source, i)) == Rest(source, i + 1)
  {}

  lemma RestSlice(source: Text, start: nat, k: nat)
    requires 1 <= k && start + k < |source|
    ensures Rest(source, start)[1..k] == source[start + 1..start + k]
    ensures Rest(source, start)[k + 1..] == Rest(source, start + k + 1)
  {}

  class StrictJson {
    const source: Text
    const rounding: Rounding
    var index: nat

    constructor (source: Text, rounding: Rounding)
      ensures this.source == source && this.rounding == rounding && index == 0
    {
      this.source := source;
      this.rounding := rounding;
      index := 0;
    }

    /** The outcome of a reading method, and where the cursor stands, against the grammar's. */
    static ghost predicate Reads<T>(expected: Parsed<T>, r: Option<T>, source: Text, index: nat) {
      if expected.Fail? then r == None
      else r == Some(expected.value) && index <= |source| && Rest(source, index) == expected.rest
    }

    method ParseAll() returns (r: Option<Json>)
      requires index == 0
      modifies this`index
      ensures r == Parse(source, READER_LIMITS, rounding)
    {
      assert Rest(source, 0) == source;
      var result := Value(0);
      if result.None? {
        return None;
      }
      Ws();
      r := if index != |source| then None else result;
    }

    method Ws()
      requires index <= |source|
      modifies this`index
      ensures old(index) <= index <= |source|
      ensures Rest(source, index) == SkipSpace(Rest(source, old(index)))
    {
      hide Rest, SkipSpace;
      while index < |source| && IsSpace(source[index])
        invariant old(index) <= index <= |source|
        invariant SkipSpace(Rest(source, index)) == SkipSpace(Rest(source, old(index)))
      {
        RestStep(source, index);
        SkipTurn(Rest(source, index));
        index := index + 1;
      }
      RestEnd(source, index);
      SkipTurn(Rest(source, index));
    }

    /** Is the cursor at this character? */
    predicate At(c: CodeUnit)
      reads this
    {
      index < |source| && source[index] == c
    }

    method Value(depth: int) returns (r: Option<Json>)
      requires index <= |source|
      modifies this`index
      ensures Reads(ParseValue(Rest(source, old(index)), depth, READER_LIMITS, rounding), r, source, index)
      ensures r.Some? ==> old(index) < index
      decreases |source| - index, 3
    {
      hide ParseNumber, ParseString, ParseObject, ParseArray, ParseItems, ParseMembers, SkipSpace, Rest;
      if depth > 12 {
        return None;
      }
      Ws();
      RestEnd(source, index);
      if At(OPEN_BRACE) {
        r := ReadObject(depth + 1);
      } else if At(OPEN_BRACKET) {
        r := ReadArray(depth + 1);
      } else if At(QUOTE) {
        var s := ReadString();
        r := match s case Some(t) => Some(String(t)) case None => None;
      } else {
        r := ReadScalar();
      }
    }

    /** The branches of `value` for the literals and the number pattern. */
    method ReadScalar() returns (r: Option<Json>)
      requires index <= |source|
      requires !At(OPEN_BRACE) && !At(OPEN_BRACKET) && !At(QUOTE)
      modifies this`index
      ensures Reads(ParseScalar(Rest(source, old(index)), rounding), r, source, index)
      ensures r.Some? ==> old(index) < index
    {
      hide ParseNumber;
      ghost var u := source[index..];
      if StartsWith(source[index..], TRUE) {
        index := index + 4;
        assert u[4..] == source[index..];
        r := Some(Bool(true));
      } else if StartsWith(source[index..], FALSE) {
        index := index + 5;
        assert u[5..] == source[index..];
        r := Some(Bool(false));
      } else if StartsWith(source[index..], NULL) {
        index := index + 4;
        assert u[4..] == source[index..];
        r := Some(Null);
      } else {
        match ParseNumber(source[index..], rounding)
        case Fail => r := None;
        case Done(n, rest) =>
          index := |source| - |rest|;
          r := Some(n);
      }
    }

    method ReadString() returns (r: Option<Text>)
      requires At(QUOTE)
      modifies this`index
      ensures Reads(ParseString(Rest(source, old(index)), READER_LIMITS), r, source, index)
      ensures r.Some? ==> old(index) < index
    {
      hide Unescape, HasControl, ScanString, Rest;
      var start := index;
      ghost var t := Rest(source, start);
      RestStep(source, index);
      index := index + 1;
      var escaped := false;
      while index < |source|
        invariant start < index <= |source|
        invariant ScanString(t[1..], false) == Shift(ScanString(Rest(source, index), escaped), index - start - 1)
      {
        var c := source[index];
        RestStep(source, index);
        ScanTurn(Rest(source, index), escaped);
        index := index + 1;
        if escaped {
          escaped := false;
        } else if c == BACKSLASH {
          escaped := true;
        } else if c == QUOTE {
          var k := index - start - 1;
          RestSlice(source, start, k);
          var result := Unescape(source[start + 1..index - 1]);
          return if result.None? || HasControl(result.value) then None else result;
        } else if c < 0x20 {
          return None;
        }
      }
      RestEnd(source, index);
      ScanNothing(escaped);
      return None;
    }

    method ReadObject(depth: int) returns (r: Option<Json>)
      requires At(OPEN_BRACE)
      modifies this`index
      ensures Reads(ParseObject(Rest(source, old(index) + 1), depth, READER_LIMITS, rounding), r, source, index)
      ensures r.Some? ==> old(index) < index
      decreases |source| - index, 2
    {
      hide ParseMember, ParseMembers, ParseObject, SkipSpace, Rest, Tail;
      RestStep(source, index);
      index := index + 1;
      var result: seq<Member> := [];
      ObjectTurn(Rest(source, index), depth, READER_LIMITS, rounding);
      Ws();
      RestEnd(source, index);
      if At(CLOSE_BRACE) {
        index := index + 1;
        return Some(Object([]));
      }
      ghost var expected := ParseMembers(Rest(source, index), depth, READER_LIMITS, rounding, []);
      while true
        invariant old(index) < index <= |source|
        invariant ParseMembers(Rest(source, index), depth, READER_LIMITS, rounding, result) == expected
        decreases |source| - index
      {
        MembersTurn(Rest(source, index), depth, READER_LIMITS, rounding, result);
        var m := ReadMember(depth, result);
        if m.None? {
          return None;
        }
        result := result + [m.value];
        var more := Separator(CLOSE_BRACE);
        if more.None? {
          return None;
        }
        if !more.value {
          return Some(Object(result));
        }
      }
    }

    /** The end of a turn of either loop: the closing character, or a comma and another turn. */
    method Separator(close: CodeUnit) returns (more: Option<bool>)
      requires index <= |source| && close != COMMA
      modifies this`index
      ensures old(index) <= index <= |source|
      ensures
        var x := SkipSpace(Rest(source, old(index)));
        if |x| > 0 && (x[0] == close || x[0] == COMMA) then
          more == Some(x[0] == COMMA) && old(index) < index && Rest(source, index) == Tail(x)
        else more == None
    {
      hide SkipSpace, Rest;
      Ws();
      RestEnd(source, index);
      if At(close) {
        index := index + 1;
        return Some(false);
      }
      if At(COMMA) {
        index := index + 1;
        return Some(true);
      }
      more := None;
    }

    /** The first half of a turn of the loop above: a new key, a colon and a value. */
    method ReadMember(depth: int, members: seq<Member>) returns (r: Option<Member>)
      requires index <= |source|
      modifies this`index
      ensures Reads(ParseMember(Rest(source, old(index)), depth, READER_LIMITS, rounding, members), r, source, index)
      ensures r.Some? ==> old(index) < index
      decreases |source| - index, 4
    {
      hide ParseString, ParseValue, ParseMember, SkipSpace, HasKey, UnsafeKey, Rest, Tail;
      MemberTurn(Rest(source, index), depth, rounding, members);
      Ws();
      RestEnd(source, index);
      if !At(QUOTE) {
        return None;
      }
      var key := ReadString();
      if key.None? || HasKey(members, key.value) || UnsafeKey(key.value) {
        return None;
      }
      Ws();
      RestEnd(source, index);
      if !At(COLON) {
        return None;
      }
      index := index + 1;
      var value := Value(depth);
      if value.None? {
        return None;
      }
      return Some(Member(key.value, value.value));
    }

    method ReadArray(depth: int) returns (r: Option<Json>)
      requires At(OPEN_BRACKET)
      modifies this`index
      ensures Reads(ParseArray(Rest(source, old(index) + 1), depth, READER_LIMITS, rounding), r, source, index)
      ensures r.Some? ==> old(index) < index
      decreases |source| - index, 2
    {
      hide ParseValue, ParseItems, ParseArray, SkipSpace, Rest, Tail, READER_LIMITS;
      RestStep(source, index);
      index := index + 1;
      var result: seq<Json> := [];
      ArrayTurn(Rest(source, index), depth, READER_LIMITS, rounding);
      Ws();
      RestEnd(source, index);
      if At(CLOSE_BRACKET) {
        index := index + 1;
        return Some(Array([]));
      }
      ghost var expected := ParseItems(Rest(source, index), depth, READER_LIMITS, rounding, []);
      while true
        invariant old(index) < index <= |source|
        invariant ParseItems(Rest(source, index), depth, READER_LIMITS, rounding, result) == expected
        decreases |source| - index
      {
        ItemsTurn(Rest(source, index), depth, READER_LIMITS, rounding, result);
        var value := Value(depth);
        if value.None? {
          return None;
        }
        result := result + [value.value];
        ItemBound(|result|);
        if |result| > 256 {
          return None;
        }
        var more := Separator(CLOSE_BRACKET);
        if more.None? {
          return None;
        }
        if !more.value {
          return Some(Array(result));
        }
      }
    }
  }

  // ------------------------------------------- one turn of each loop, as equations

  lemma ScanTurn(t: Text, escaped: bool)
    requires |t| > 0
    ensures ScanString(t, escaped) ==
      if escaped then Shift(ScanString(t[1..], false), 1)
      else if t[0] == BACKSLASH then Shift(ScanString(t[1..], true), 1)
      else if t[0] == QUOTE then Some(1)
      else if t[0] < 0x20 then None
      else Shift(ScanString(t[1..], false), 1)
  {}

  lemma SkipTurn(t: Text)
    ensures SkipSpace(t) == if |t| > 0 && IsSpace(t[0]) then SkipSpace(t[1..]) else t
  {}

  lemma ScanNothing(escaped: bool)
    ensures ScanString([], escaped) == None
  {}

  lemma MembersTurn(t: Text, depth: int, limits: Limits, rounding: Rounding, acc: seq<Member>)
    ensures ParseMembers(t, depth, limits, rounding, acc) ==
      var r := ParseMember(t, depth, limits, rounding, acc);
      if r.Fail? then Fail
      else
        var x := SkipSpace(r.rest);
        if |x| > 0 && x[0] == CLOSE_BRACE then Done(Object(acc + [r.value]), Tail(x))
        else if |x| > 0 && x[0] == COMMA then ParseMembers(Tail(x), depth, limits, rounding, acc + [r.value])
        else Fail
  {}

  lemma MemberTurn(t: Text, depth: int, rounding: Rounding, acc: seq<Member>)
    ensures ParseMember(t, depth, READER_LIMITS, rounding, acc) ==
      var u := SkipSpace(t);
      if |u| == 0 || u[0] != QUOTE then Fail
      else
        var key := ParseString(u, READER_LIMITS);
        if key.Fail? || HasKey(acc, key.value) || UnsafeKey(key.value) then Fail
        else
          var w := SkipSpace(key.rest);
          if |w| == 0 || w[0] != COLON then Fail
          else
            var value := ParseValue(Tail(w), depth, READER_LIMITS, rounding);
            if value.Fail? then Fail else Done(Member(key.value, value.value), value.rest)
  {
    hide ParseString, ParseValue, SkipSpace, HasKey, UnsafeKey;
  }

  lemma ObjectTurn(t: Text, depth: int, limits: Limits, rounding: Rounding)
    ensures ParseObject(t, depth, limits, rounding) ==
      var u := SkipSpace(t);
      if |u| > 0 && u[0] == CLOSE_BRACE then Done(Object([]), Tail(u)) else ParseMembers(u, depth, limits, rounding, [])
  {}

  lemma ArrayTurn(t: Text, depth: int, limits: Limits, rounding: Rounding)
    ensures ParseArray(t, depth, limits, rounding) ==
      var u := SkipSpace(t);
      if |u| > 0 && u[0] == CLOSE_BRACKET then Done(Array([]), Tail(u)) else ParseItems(u, depth, limits, rounding, [])
  {}

  lemma ItemBound(n: nat)
    ensures READER_LIMITS.TooMany(n) <==> n > 256
  {}

  lemma ItemsTurn(t: Text, depth: int, limits: Limits, rounding: Rounding, acc: seq<Json>)
    ensures ParseItems(t, depth, limits, rounding, acc) ==
      var r := ParseValue(t, depth, limits, rounding);
      if r.Fail? then Fail
      else
        var x := SkipSpace(r.rest);
        if limits.TooMany(|acc| + 1) then Fail
        else if |x| > 0 && x[0] == CLOSE_BRACKET then Done(Array(acc + [r.value]), Tail(x))
        else if |x| > 0 && x[0] == COMMA then ParseItems(Tail(x), depth, limits, rounding, acc + [r.value])
        else Fail
  {}
}
