/** JSON values, the token stream a `json.Decoder` delivers, and the check that a backup
    names no object member twice (internal/core/backup.go).

    A stream is the list of tokens the decoder returns, so separators are already gone and
    whitespace never existed. Object members keep their order and may repeat. */
module Json {
  import opened Wrappers
  import opened Ordering

  datatype Value =
    | Null
    | Bool(b: bool)
    | Number(digits: string)
    | Str(s: string)
    | Array(elems: seq<Value>)
    | Object(members: seq<Member>)

  datatype Member = Member(name: string, value: Value)

  datatype Token = OpenObject | CloseObject | OpenArray | CloseArray | Text(s: string) | Scalar(v: Value)

  /** The tokens of a value that is neither text nor a container. */
  predicate IsScalar(v: Value) {
    v.Null? || v.Bool? || v.Number?
  }

  function TokensOf(v: Value): (ts: seq<Token>)
    ensures |ts| > 0
  {
    match v
    case Str(s) => [Text(s)]
    case Array(elems) => [OpenArray] + TokensOfAll(elems) + [CloseArray]
    case Object(members) => [OpenObject] + TokensOfMembers(members) + [CloseObject]
    case _ => [Scalar(v)]
  }

  function TokensOfAll(vs: seq<Value>): seq<Token> {
    if vs == [] then [] else TokensOf(vs[0]) + TokensOfAll(vs[1..])
  }

  function TokensOfMembers(ms: seq<Member>): seq<Token> {
    if ms == [] then [] else [Text(ms[0].name)] + TokensOf(ms[0].value) + TokensOfMembers(ms[1..])
  }

  function Names(ms: seq<Member>): seq<string> {
    seq(|ms|, i requires 0 <= i < |ms| => ms[i].name)
  }

  /** No object anywhere inside `v` has two members of the same name. */
  ghost predicate Unique(v: Value) {
    match v
    case Array(elems) => forall e <- elems :: Unique(e)
    case Object(members) => Distinct(Names(members)) && forall m <- members :: Unique(m.value)
    case _ => true
  }

  // ----- the stream read back -----

  datatype Parsed<+T> = Parsed(item: T, rest: seq<Token>)

  function ParseValue(ts: seq<Token>): (r: Option<Parsed<Value>>)
    ensures r.Some? ==> |r.value.rest| < |ts|
    decreases |ts|, 0
  {
    if ts == [] then None
    else match ts[0]
      case Text(s) => Some(Parsed(Str(s), ts[1..]))
      case Scalar(v) => if IsScalar(v) then Some(Parsed(v, ts[1..])) else None
      case OpenArray =>
        (match ParseElems(ts[1..])
         case None => None
         case Some(p) => Some(Parsed(Array(p.item), p.rest)))
      case OpenObject =>
        (match ParseMembers(ts[1..])
         case None => None
         case Some(p) => Some(Parsed(Object(p.item), p.rest)))
      case _ => None
  }

  /** Elements up to and including the closing bracket. */
  function ParseElems(ts: seq<Token>): (r: Option<Parsed<seq<Value>>>)
    ensures r.Some? ==> |r.value.rest| < |ts|
    decreases |ts|, 1
  {
    if ts == [] then None
    else if ts[0] == CloseArray then Some(Parsed([], ts[1..]))
    else match ParseValue(ts)
      case None => None
      case Some(first) =>
        match ParseElems(first.rest)
        case None => None
        case Some(others) => Some(Parsed([first.item] + others.item, others.rest))
  }

  /** Members up to and including the closing brace. */
  function ParseMembers(ts: seq<Token>): (r: Option<Parsed<seq<Member>>>)
    ensures r.Some? ==> |r.value.rest| < |ts|
    decreases |ts|, 1
  {
    if ts == [] then None
    else if ts[0] == CloseObject then Some(Parsed([], ts[1..]))
    else if !ts[0].Text? then None
    else match ParseValue(ts[1..])
      case None => None
      case Some(first) =>
        match ParseMembers(first.rest)
        case None => None
        case Some(others) => Some(Parsed([Member(ts[0].s, first.item)] + others.item, others.rest))
  }

  /** Parsing undoes printing, whatever follows. */
  lemma {:induction false} ParsePrinted(v: Value, rest: seq<Token>)
    ensures ParseValue(TokensOf(v) + rest) == Some(Parsed(v, rest))
    decreases v
  {
    var ts := TokensOf(v) + rest;
    match v
    case Array(elems) =>
      assert ts[1..] == TokensOfAll(elems) + ([CloseArray] + rest);
      ParsePrintedAll(elems, rest, v);
    case Object(members) =>
      assert ts[1..] == TokensOfMembers(members) + ([CloseObject] + rest);
      ParsePrintedMembers(members, rest, v);
    case _ =>
      assert ts[1..] == rest;
  }

  lemma {:induction false} ParsePrintedAll(vs: seq<Value>, rest: seq<Token>, within: Value)
    requires forall i :: 0 <= i < |vs| ==> vs[i] < within
    ensures ParseElems(TokensOfAll(vs) + ([CloseArray] + rest)) == Some(Parsed(vs, rest))
    decreases within, |vs|
  {
    var ts := TokensOfAll(vs) + ([CloseArray] + rest);
    if vs == [] {
      assert ts[1..] == rest;
    } else {
      var tail := TokensOfAll(vs[1..]) + ([CloseArray] + rest);
      assert ts == TokensOf(vs[0]) + tail;
      ParsePrinted(vs[0], tail);
      ParsePrintedAll(vs[1..], rest, within);
      assert ts[0] == TokensOf(vs[0])[0];
      assert vs == [vs[0]] + vs[1..];
    }
  }

  lemma {:induction false} ParsePrintedMembers(ms: seq<Member>, rest: seq<Token>, within: Value)
    requires forall i :: 0 <= i < |ms| ==> ms[i].value < within
    ensures ParseMembers(TokensOfMembers(ms) + ([CloseObject] + rest)) == Some(Parsed(ms, rest))
    decreases within, |ms|
  {
    hide ParseValue, TokensOf;
    var ts := TokensOfMembers(ms) + ([CloseObject] + rest);
    if ms == [] {
      assert ts[1..] == rest;
    } else {
      var tail := TokensOfMembers(ms[1..]) + ([CloseObject] + rest);
      assert ts == [Text(ms[0].name)] + (TokensOf(ms[0].value) + tail);
      assert ts[1..] == TokensOf(ms[0].value) + tail;
      ParsePrinted(ms[0].value, tail);
      ParsePrintedMembers(ms[1..], rest, within);
      assert ms == [ms[0]] + ms[1..];
    }
  }

  /** A stream that parses is the print of what was parsed, followed by the rest. */
  lemma {:induction false} ParseSound(ts: seq<Token>)
    requires ParseValue(ts).Some?
    ensures ts == TokensOf(ParseValue(ts).value.item) + ParseValue(ts).value.rest
    decreases |ts|, 0
  {
    hide ParseElems, ParseMembers, TokensOfAll, TokensOfMembers;
    assert ts == [ts[0]] + ts[1..];
    match ts[0]
    case OpenArray =>
      ParseElemsSound(ts[1..]);
    case OpenObject =>
      ParseMembersSound(ts[1..]);
    case Text(_) | Scalar(_) =>
  }

  lemma {:induction false} ParseElemsSound(ts: seq<Token>)
    requires ParseElems(ts).Some?
    ensures ts == TokensOfAll(ParseElems(ts).value.item) + ([CloseArray] + ParseElems(ts).value.rest)
    decreases |ts|, 1
  {
    if ts[0] != CloseArray {
      ParseSound(ts);
      ParseElemsSound(ParseValue(ts).value.rest);
    }
  }

  lemma {:induction false} ParseMembersSound(ts: seq<Token>)
    requires ParseMembers(ts).Some?
    ensures ts == TokensOfMembers(ParseMembers(ts).value.item) + ([CloseObject] + ParseMembers(ts).value.rest)
    decreases |ts|, 1
  {
    hide ParseValue, TokensOf;
    if ts[0] != CloseObject {
      ParseSound(ts[1..]);
      ParseMembersSound(ParseValue(ts[1..]).value.rest);
      assert ts == [ts[0]] + ts[1..];
    }
  }

  // ----- the decoder and the walk over it -----

  /** What the innermost open container expects next. */
  datatype Nest = InArray | AtName | AtMember

  /** `json.Decoder` reduced to `Token` and `More`: a position in the stream and the open containers,
      with the decoder's own refusal of a token that its place in the document does not allow. */
  class Decoder {
    const tokens: seq<Token>
    var pos: nat
    var nest: seq<Nest>

    constructor (tokens: seq<Token>)
      ensures this.tokens == tokens && pos == 0 && nest == []
    {
      this.tokens, pos, nest := tokens, 0, [];
    }

    ghost predicate Valid()
      reads this
    {
      pos <= |tokens|
    }

    function Rest(): seq<Token>
      requires pos <= |tokens|
      reads this
    {
      tokens[pos..]
    }

    /** The next token is there and is `t`. */
    ghost predicate At(t: Token)
      requires Valid()
      reads this
    {
      Rest() != [] && Rest()[0] == t
    }

    method More() returns (more: bool)
      requires Valid()
      ensures more == (Rest() != [] && Rest()[0] != CloseObject && Rest()[0] != CloseArray)
    {
      more := pos < |tokens| && tokens[pos] != CloseObject && tokens[pos] != CloseArray;
    }

    /** None stands for any error, the end of input included; then nothing is consumed. */
    method Next() returns (t: Option<Token>)
      requires Valid()
      modifies this
      ensures Valid()
      ensures t.Some? == (old(Rest()) != [] && Allowed(old(nest), old(Rest())[0]))
      ensures t.Some? ==> old(Rest()) == [t.value] + Rest() && nest == After(old(nest), t.value)
      ensures t.None? ==> pos == old(pos) && nest == old(nest)
    {
      if pos == |tokens| || !Allowed(nest, tokens[pos]) {
        return None;
      }
      t := Some(tokens[pos]);
      nest := After(nest, tokens[pos]);
      pos := pos + 1;
    }
  }

  predicate ValueAllowed(nest: seq<Nest>) {
    nest == [] || nest[|nest| - 1] != AtName
  }

  predicate Allowed(nest: seq<Nest>, t: Token) {
    match t
    case CloseObject => nest != [] && nest[|nest| - 1] == AtName
    case CloseArray => nest != [] && nest[|nest| - 1] == InArray
    case Text(_) => true
    case Scalar(v) => IsScalar(v) && ValueAllowed(nest)
    case _ => ValueAllowed(nest)
  }

  /** The open containers once a value has been read in `nest`. */
  function ValueEnd(nest: seq<Nest>): (r: seq<Nest>)
    ensures |r| == |nest|
  {
    if nest != [] && nest[|nest| - 1] == AtMember then nest[..|nest| - 1] + [AtName] else nest
  }

  function After(nest: seq<Nest>, t: Token): seq<Nest>
    requires Allowed(nest, t)
  {
    match t
    case OpenObject => nest + [AtName]
    case OpenArray => nest + [InArray]
    case CloseObject | CloseArray => ValueEnd(nest[..|nest| - 1])
    case Text(_) =>
      if nest != [] && nest[|nest| - 1] == AtName then nest[..|nest| - 1] + [AtMember] else ValueEnd(nest)
    case Scalar(_) => ValueEnd(nest)
  }

  /** The members' values are unique inside, and their names are new: not in `seen`, not repeated. */
  ghost predicate UniqueMembers(ms: seq<Member>, seen: set<string>) {
    ms == [] || (ms[0].name !in seen && Unique(ms[0].value) && UniqueMembers(ms[1..], seen + {ms[0].name}))
  }

  lemma {:induction false} UniqueMembersMeaning(ms: seq<Member>, seen: set<string>)
    ensures UniqueMembers(ms, seen) <==>
            Distinct(Names(ms)) && (forall m <- ms :: Unique(m.value)) && (forall n <- Names(ms) :: n !in seen)
  {
    if ms != [] {
      UniqueMembersMeaning(ms[1..], seen + {ms[0].name});
      assert ms == [ms[0]] + ms[1..];
      assert Names(ms) == [ms[0].name] + Names(ms[1..]);
      DistinctCons(ms[0].name, Names(ms[1..]));
    }
  }

  lemma NoValue()
    ensures ParseValue([]).None?
  {}

  /** What the first token says about reading a value. */
  lemma ValueStarts(ts: seq<Token>)
    requires ts != []
    ensures ts[0].OpenObject? ==>
              && (ParseValue(ts).Some? <==> ParseMembers(ts[1..]).Some?)
              && (ParseValue(ts).Some? ==>
                    && ParseValue(ts).value.rest == ParseMembers(ts[1..]).value.rest
                    && (Unique(ParseValue(ts).value.item) <==> UniqueMembers(ParseMembers(ts[1..]).value.item, {})))
    ensures ts[0].OpenArray? ==>
              && (ParseValue(ts).Some? <==> ParseElems(ts[1..]).Some?)
              && (ParseValue(ts).Some? ==>
                    && ParseValue(ts).value.rest == ParseElems(ts[1..]).value.rest
                    && (Unique(ParseValue(ts).value.item) <==> forall v <- ParseElems(ts[1..]).value.item :: Unique(v)))
    ensures ts[0].Text? || (ts[0].Scalar? && IsScalar(ts[0].v)) ==>
              ParseValue(ts).Some? && ParseValue(ts).value.rest == ts[1..] && Unique(ParseValue(ts).value.item)
    ensures ts[0].CloseObject? || ts[0].CloseArray? || (ts[0].Scalar? && !IsScalar(ts[0].v)) ==> ParseValue(ts).None?
  {
    hide ParseElems, ParseMembers, UniqueMembers;
    if ts[0].OpenObject? && ParseMembers(ts[1..]).Some? { UniqueMembersMeaning(ParseMembers(ts[1..]).value.item, {}); }
  }

  /** Reads one value. It succeeds exactly when the stream starts with a value that repeats no name,
      and then it has consumed exactly that value. */
  method Walk(dec: Decoder) returns (ok: bool)
    requires dec.Valid() && ValueAllowed(dec.nest)
    modifies dec
    ensures dec.Valid()
    ensures ok <==> ParseValue(old(dec.Rest())).Some? && Unique(ParseValue(old(dec.Rest())).value.item)
    ensures ok ==> dec.Rest() == ParseValue(old(dec.Rest())).value.rest && dec.nest == ValueEnd(old(dec.nest))
    decreases |dec.tokens| - dec.pos, 0
  {
    hide ParseValue, ParseElems, ParseMembers, Unique, UniqueMembers;
    ghost var start := dec.Rest();
    ghost var nest := dec.nest;
    NoValue();
    if start != [] { ValueStarts(start); }
    var token := dec.Next();
    if token.None? {
      return false;
    }
    assert dec.Rest() == start[1..];
    match token.value {
      case OpenObject =>
        ok := WalkObject(dec);
        assert ok ==> (nest + [AtName])[..|nest|] == nest;
      case OpenArray =>
        ok := WalkArray(dec);
        assert ok ==> (nest + [InArray])[..|nest|] == nest;
      case CloseObject | CloseArray =>
        ok := false;
      case Text(_) | Scalar(_) =>
        ok := true;
    }
  }

  /** The members of an object and the brace that closes it. */
  method WalkObject(dec: Decoder) returns (ok: bool)
    requires dec.Valid() && dec.nest != [] && dec.nest[|dec.nest| - 1] == AtName
    modifies dec
    ensures dec.Valid()
    ensures ok <==> ParseMembers(old(dec.Rest())).Some? && UniqueMembers(ParseMembers(old(dec.Rest())).value.item, {})
    ensures ok ==> dec.Rest() == ParseMembers(old(dec.Rest())).value.rest
    ensures ok ==> dec.nest == ValueEnd(old(dec.nest[..|dec.nest| - 1]))
    decreases |dec.tokens| - dec.pos, 1
  {
    hide ParseValue, Unique;
    ghost var all := ParseMembers(dec.Rest());
    ghost var nest := dec.nest;
    var seen: set<string> := {};
    var more := dec.More();
    while more
      invariant dec.Valid() && dec.nest == nest
      invariant old(dec.pos) <= dec.pos
      invariant more == (dec.Rest() != [] && dec.Rest()[0] != CloseObject && dec.Rest()[0] != CloseArray)
      invariant ParseMembers(dec.Rest()).Some? <==> all.Some?
      invariant all.Some? ==> ParseMembers(dec.Rest()).value.rest == all.value.rest
      invariant all.Some? ==>
                  (UniqueMembers(all.value.item, {}) <==> UniqueMembers(ParseMembers(dec.Rest()).value.item, seen))
      decreases |dec.tokens| - dec.pos
    {
      ghost var here := dec.Rest();
      var name := dec.Next();
      if name.None? || !name.value.Text? {
        return false;
      }
      assert here[1..] == dec.Rest();
      ghost var value := ParseValue(dec.Rest());
      if all.Some? {
        assert ([Member(name.value.s, value.value.item)] + ParseMembers(value.value.rest).value.item)[1..] ==
               ParseMembers(value.value.rest).value.item;
      }
      if name.value.s in seen {
        return false;
      }
      seen := seen + {name.value.s};
      var good := Walk(dec);
      if !good {
        return false;
      }
      more := dec.More();
    }
    ghost var here := dec.Rest();
    var close := dec.Next();
    ok := close.Some?;
    assert ok ==> here[1..] == dec.Rest();
  }

  /** The elements of an array and the bracket that closes it. */
  method WalkArray(dec: Decoder) returns (ok: bool)
    requires dec.Valid() && dec.nest != [] && dec.nest[|dec.nest| - 1] == InArray
    modifies dec
    ensures dec.Valid()
    ensures ok <==> ParseElems(old(dec.Rest())).Some? && forall v <- ParseElems(old(dec.Rest())).value.item :: Unique(v)
    ensures ok ==> dec.Rest() == ParseElems(old(dec.Rest())).value.rest
    ensures ok ==> dec.nest == ValueEnd(old(dec.nest[..|dec.nest| - 1]))
    decreases |dec.tokens| - dec.pos, 1
  {
    ghost var all := ParseElems(dec.Rest());
    ghost var nest := dec.nest;
    var more := dec.More();
    while more
      invariant dec.Valid() && dec.nest == nest
      invariant old(dec.pos) <= dec.pos
      invariant more == (dec.Rest() != [] && dec.Rest()[0] != CloseObject && dec.Rest()[0] != CloseArray)
      invariant ParseElems(dec.Rest()).Some? <==> all.Some?
      invariant all.Some? ==> ParseElems(dec.Rest()).value.rest == all.value.rest
      invariant all.Some? ==> ((forall v <- all.value.item :: Unique(v)) <==>
                               (forall v <- ParseElems(dec.Rest()).value.item :: Unique(v)))
      decreases |dec.tokens| - dec.pos
    {
      ghost var first := ParseValue(dec.Rest());
      if all.Some? {
        ghost var others := ParseElems(first.value.rest).value.item;
        assert forall v :: v in [first.value.item] + others <==> v == first.value.item || v in others;
      }
      var good := Walk(dec);
      if !good {
        return false;
      }
      more := dec.More();
    }
    ghost var here := dec.Rest();
    var close := dec.Next();
    ok := close.Some?;
    assert ok ==> here[1..] == dec.Rest();
  }

  /** A backup is accepted exactly when it is one JSON value, nothing after it, in which no object
      at any depth names a member twice. */
  method UniqueJSON(tokens: seq<Token>) returns (ok: bool)
    ensures ok <==> exists v :: Unique(v) && tokens == TokensOf(v)
  {
    var dec := new Decoder(tokens);
    assert dec.Rest() == tokens;
    ghost var parsed := ParseValue(tokens);
    if parsed.Some? { ParseSound(tokens); }
    forall v | tokens == TokensOf(v)
      ensures parsed == Some(Parsed(v, []))
    {
      ParsePrinted(v, []);
      assert TokensOf(v) + [] == tokens;
    }
    ok := Walk(dec);
    if !ok { return; }
    ok := dec.pos == |tokens|;
    if ok { assert tokens == TokensOf(parsed.value.item); }
  }
}
