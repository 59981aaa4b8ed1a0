/**
 * The instruction extractor of the shape viewer (`extractShapes`): it finds
 * `{key+modifier+...}` instructions in a chat message, rejects the whole
 * message when one instruction carries more than ten modifiers, and otherwise
 * concatenates what the shape builder returns for each instruction.
 *
 * The shape builder (`handleInstruction`) is not part of this model: it is
 * the parameter `build`, a function from a key and its modifiers to the
 * shape descriptors (of any type `D`) it produces.
 */
module Extractor {
  import opened Text

  /** The largest number of modifiers one instruction may carry. */
  const MaxModifiers := 10

  /** One parsed instruction: the key that selects the shape builder and its modifiers, in order. */
  datatype Instruction = Instruction(key: string, modifiers: seq<string>)

  /** The error thrown as "Limit of modifiers reached". */
  datatype Error = ModifierLimitReached

  datatype Result<T> = Ok(value: T) | Err(error: Error)

  /** `message.split("{").slice(1)`: the text after each `{`, up to the next `{`. */
  function Fragments(message: string): (parts: seq<string>)
    ensures forall i :: 0 <= i < |parts| ==> '{' !in parts[i]
  {
    Split(message, '{')[1..]
  }

  /** An instruction body split on `+`: the first piece is the key, the others the modifiers. */
  function ParseInstruction(body: string): (ins: Instruction)
    ensures '+' !in ins.key
    ensures forall i :: 0 <= i < |ins.modifiers| ==> '+' !in ins.modifiers[i]
  {
    var flags := Split(body, '+');
    Instruction(flags[0], flags[1..])
  }

  /** Nothing of the body is lost: joining the key and modifiers with `+` gives it back. */
  lemma ParseThenJoin(body: string)
    ensures var ins := ParseInstruction(body); Join([ins.key] + ins.modifiers, '+') == body
  {
    var flags := Split(body, '+');
    JoinSplit(body, '+');
    assert [flags[0]] + flags[1..] == flags;
  }

  /** A key and modifiers free of `+`, joined with `+`, parse back to that key and those modifiers in order. */
  lemma JoinThenParse(key: string, mods: seq<string>)
    requires '+' !in key
    requires forall i :: 0 <= i < |mods| ==> '+' !in mods[i]
    ensures ParseInstruction(Join([key] + mods, '+')) == Instruction(key, mods)
  {
    SplitJoin([key] + mods, '+');
  }

  /** The instruction a fragment holds: none when it has no `}`, otherwise the
      one whose body is the text before the fragment's first `}`. */
  function TokenOf(part: string): (toks: seq<Instruction>)
    ensures |toks| <= 1
    ensures |toks| == 0 <==> '}' !in part
  {
    var endIndex := IndexOf(part, '}');
    if endIndex == -1 then [] else [ParseInstruction(part[..endIndex])]
  }

  /** The instruction body is the fragment's text up to its first `}`, whatever follows. */
  lemma InstructionBody(part: string, k: nat)
    requires k < |part| && part[k] == '}' && '}' !in part[..k]
    ensures TokenOf(part) == [ParseInstruction(part[..k])]
  {
    IndexOfIsFirst(part, '}', k);
  }

  /** `xs.flatMap(f)`: the results of `f` on each element, concatenated left to right. */
  function FlatMap<A, B>(xs: seq<A>, f: A -> seq<B>): seq<B>
  {
    if |xs| == 0 then []
    else FlatMap(xs[..|xs| - 1], f) + f(xs[|xs| - 1])
  }

  /** The instructions of a sequence of fragments, left to right. */
  function Tokens(parts: seq<string>): seq<Instruction>
  {
    FlatMap(parts, TokenOf)
  }

  /** Whether no instruction carries more than `MaxModifiers` modifiers. */
  predicate WithinLimit(toks: seq<Instruction>)
  {
    forall i :: 0 <= i < |toks| ==> |toks[i].modifiers| <= MaxModifiers
  }

  /** The builder applied to one instruction. */
  function Builder<D>(build: (string, seq<string>) -> seq<D>): Instruction -> seq<D>
  {
    (t: Instruction) => build(t.key, t.modifiers)
  }

  /** The concatenation, in order, of what the builder returns for each instruction. */
  function Expand<D>(toks: seq<Instruction>, build: (string, seq<string>) -> seq<D>): seq<D>
  {
    FlatMap(toks, Builder(build))
  }

  /** The shapes of a sequence of fragments: all of them, or the error when one
      instruction is over the modifier limit. */
  function ExtractFragments<D>(parts: seq<string>, build: (string, seq<string>) -> seq<D>): Result<seq<D>>
  {
    var toks := Tokens(parts);
    if WithinLimit(toks) then Ok(Expand(toks, build)) else Err(ModifierLimitReached)
  }

  /** What `extractShapes(message)` returns, or the error it throws. */
  function Extract<D>(message: string, build: (string, seq<string>) -> seq<D>): Result<seq<D>>
  {
    ExtractFragments(Fragments(message), build)
  }

  /** `extractShapes`: one pass over the fragments, appending each instruction's
      shapes and giving up on the first instruction over the modifier limit. */
  method ExtractShapes<D>(message: string, build: (string, seq<string>) -> seq<D>) returns (r: Result<seq<D>>)
    ensures r == Extract(message, build)
  {
    var parts := Split(message, '{')[1..];
    var shapes: seq<D> := [];
    if |parts| == 0 {
      return Ok(shapes);
    }
    for i := 0 to |parts|
      invariant WithinLimit(Tokens(parts[..i]))
      invariant shapes == Expand(Tokens(parts[..i]), build)
    {
      TokensStep(parts, i);
      var part := parts[i];
      var endIndex := IndexOf(part, '}');
      if endIndex == -1 {
        assert TokenOf(part) == [];
        assert Tokens(parts[..i + 1]) == Tokens(parts[..i]);
        continue;
      }
      var instruction := part[..endIndex];
      var flags := Split(instruction, '+');
      var shortKey := flags[0];
      var modifiers := flags[1..];
      if |modifiers| > MaxModifiers {
        OverLimitPoisons(parts, i);
        return Err(ModifierLimitReached);
      }
      assert TokenOf(part) == [Instruction(shortKey, modifiers)];
      ghost var ins := Instruction(shortKey, modifiers);
      ExpandStep(Tokens(parts[..i]), ins, build);
      assert Tokens(parts[..i + 1]) == Tokens(parts[..i]) + [ins];
      assert WithinLimit(Tokens(parts[..i + 1]));
      shapes := shapes + build(shortKey, modifiers);
      assert shapes == Expand(Tokens(parts[..i + 1]), build);
    }
    assert parts[..|parts|] == parts;
    return Ok(shapes);
  }

  /** One more fragment adds its instruction, if any, at the end. */
  lemma TokensStep(parts: seq<string>, i: nat)
    requires i < |parts|
    ensures Tokens(parts[..i + 1]) == Tokens(parts[..i]) + TokenOf(parts[i])
  {
    assert parts[..i + 1][..i] == parts[..i];
  }

  /** One more instruction adds what the builder returns for it at the end. */
  lemma ExpandStep<D>(toks: seq<Instruction>, ins: Instruction, build: (string, seq<string>) -> seq<D>)
    ensures Expand(toks + [ins], build) == Expand(toks, build) + build(ins.key, ins.modifiers)
  {
    assert (toks + [ins])[..|toks|] == toks;
  }

  /** One fragment whose instruction is over the modifier limit makes the whole run fail. */
  lemma OverLimitPoisons(parts: seq<string>, i: nat)
    requires i < |parts| && |TokenOf(parts[i])| == 1 && |TokenOf(parts[i])[0].modifiers| > MaxModifiers
    ensures !WithinLimit(Tokens(parts))
  {
    var front, back := parts[..i], parts[i..];
    assert back == [parts[i]] + parts[i + 1..];
    assert parts == front + back;
    FlatMapAppend(front, back, TokenOf);
    FlatMapAppend([parts[i]], parts[i + 1..], TokenOf);
    FlatMapSingle(parts[i], TokenOf);
    assert Tokens(parts)[|Tokens(front)|] == TokenOf(parts[i])[0];
  }

  /** Mapping two runs gives the two results, in order. */
  lemma {:induction false} FlatMapAppend<A, B>(xs: seq<A>, ys: seq<A>, f: A -> seq<B>)
    ensures FlatMap(xs + ys, f) == FlatMap(xs, f) + FlatMap(ys, f)
    decreases |ys|
  {
    if |ys| == 0 {
      assert xs + ys == xs;
    } else {
      var zs := xs + ys;
      var init := ys[..|ys| - 1];
      assert zs[..|zs| - 1] == xs + init;
      assert zs[|zs| - 1] == ys[|ys| - 1];
      FlatMapAppend(xs, init, f);
      calc {
        FlatMap(zs, f);
        FlatMap(xs + init, f) + f(ys[|ys| - 1]);
        FlatMap(xs, f) + FlatMap(init, f) + f(ys[|ys| - 1]);
        FlatMap(xs, f) + (FlatMap(init, f) + f(ys[|ys| - 1]));
        FlatMap(xs, f) + FlatMap(ys, f);
      }
    }
  }

  /** Mapping a single element is applying the function to it. */
  lemma FlatMapSingle<A, B>(x: A, f: A -> seq<B>)
    ensures FlatMap([x], f) == f(x)
  {
    assert [x][..0] == [];
  }

  /** All or nothing, in order: two runs of fragments succeed together exactly
      when each succeeds, and then give the first run's shapes followed by the second's. */
  lemma ExtractFragmentsAppend<D>(p: seq<string>, q: seq<string>, build: (string, seq<string>) -> seq<D>)
    ensures ExtractFragments(p + q, build).Ok? <==> ExtractFragments(p, build).Ok? && ExtractFragments(q, build).Ok?
    ensures ExtractFragments(p + q, build).Ok? ==>
      ExtractFragments(p + q, build).value == ExtractFragments(p, build).value + ExtractFragments(q, build).value
  {
    FlatMapAppend(p, q, TokenOf);
    var tp, tq := Tokens(p), Tokens(q);
    assert WithinLimit(tp + tq) <==> WithinLimit(tp) && WithinLimit(tq) by {
      if WithinLimit(tp + tq) {
        assert forall i :: 0 <= i < |tp| ==> tp[i] == (tp + tq)[i];
        assert forall i :: 0 <= i < |tq| ==> tq[i] == (tp + tq)[|tp| + i];
      }
    }
    FlatMapAppend(tp, tq, Builder(build));
  }

  /** A fragment without `}` contributes nothing and does not affect the fragments after it. */
  lemma UnterminatedFragmentSkipped<D>(p: seq<string>, f: string, q: seq<string>, build: (string, seq<string>) -> seq<D>)
    requires '}' !in f
    ensures ExtractFragments(p + [f] + q, build) == ExtractFragments(p + q, build)
  {
    FlatMapAppend(p + [f], q, TokenOf);
    FlatMapAppend(p, [f], TokenOf);
    FlatMapAppend(p, q, TokenOf);
    FlatMapSingle(f, TokenOf);
    assert TokenOf(f) == [];
    assert Tokens(p + [f]) == Tokens(p) + [];
    assert Tokens(p + [f] + q) == Tokens(p + q);
  }

  /** A message without `{` yields no shapes, and this is not an error. */
  lemma NoOpenBraceNoShapes<D>(message: string, build: (string, seq<string>) -> seq<D>)
    requires '{' !in message
    ensures Extract(message, build) == Ok([])
  {
    SplitWithoutSeparator(message, '{');
  }

  /** The same, stated on whole messages: a `{` followed by text without `}`
      (up to the next `{`) can be removed from a message without changing what it yields. */
  lemma UnterminatedInstructionIgnored<D>(pre: string, f: string, post: string, build: (string, seq<string>) -> seq<D>)
    requires '{' !in f && '}' !in f
    ensures Extract(pre + "{" + f + "{" + post, build) == Extract(pre + "{" + post, build)
  {
    var longer, shorter := pre + "{" + f + "{" + post, pre + "{" + post;
    assert longer == pre + "{" + (f + "{" + post);
    FragmentsAfter(pre, f + "{" + post);
    SplitAtSeparator(f, post, '{');
    SplitWithoutSeparator(f, '{');
    assert Fragments(longer) == Fragments(pre) + [f] + Split(post, '{');
    FragmentsAfter(pre, post);
    UnterminatedFragmentSkipped(Fragments(pre), f, Split(post, '{'), build);
  }

  /** The fragments after a `{` are those before it followed by the pieces of the rest. */
  lemma FragmentsAfter(pre: string, rest: string)
    ensures Fragments(pre + "{" + rest) == Fragments(pre) + Split(rest, '{')
  {
    SplitAtSeparator(pre, rest, '{');
    assert pre + "{" + rest == pre + ['{'] + rest;
    var a := Split(pre, '{');
    assert (a + Split(rest, '{'))[1..] == a[1..] + Split(rest, '{');
  }

  /** A message holding one instruction `{key+m1+...+mn}`: it yields exactly
      what the builder returns for that key and those modifiers when n <= 10,
      and the modifier-limit error when n > 10. */
  lemma SingleInstruction<D>(pre: string, key: string, mods: seq<string>, post: string, build: (string, seq<string>) -> seq<D>)
    requires '{' !in pre && '{' !in post
    requires '{' !in key && '}' !in key && '+' !in key
    requires forall i :: 0 <= i < |mods| ==> '{' !in mods[i] && '}' !in mods[i] && '+' !in mods[i]
    ensures Extract(pre + "{" + Join([key] + mods, '+') + "}" + post, build)
         == if |mods| <= MaxModifiers then Ok(build(key, mods)) else Err(ModifierLimitReached)
  {
    var body := Join([key] + mods, '+');
    InstructionFree(key, mods, '{');
    InstructionFree(key, mods, '}');
    OneInstructionBody(pre, body, post);
    JoinThenParse(key, mods);
    OneInstruction(pre + "{" + body + "}" + post, Instruction(key, mods), build);
  }

  /** A message `pre{body}post` with no other `{` and no `}` in `body` holds the instruction parsed from `body`. */
  lemma OneInstructionBody(pre: string, body: string, post: string)
    requires '{' !in pre && '{' !in body && '}' !in body && '{' !in post
    ensures Tokens(Fragments(pre + "{" + body + "}" + post)) == [ParseInstruction(body)]
  {
    var frag := body + "}" + post;
    assert Fragments(pre + "{" + body + "}" + post) == [frag] by {
      OneFragment(pre, frag);
      assert pre + "{" + body + "}" + post == pre + "{" + frag;
    }
    assert Tokens([frag]) == [ParseInstruction(body)] by {
      TerminatedFragment(body, post);
      FlatMapSingle(frag, TokenOf);
    }
  }

  /** A message with a single instruction yields that instruction's shapes, or the
      error when it is over the modifier limit. */
  lemma OneInstruction<D>(message: string, ins: Instruction, build: (string, seq<string>) -> seq<D>)
    requires Tokens(Fragments(message)) == [ins]
    ensures Extract(message, build)
         == if |ins.modifiers| <= MaxModifiers then Ok(build(ins.key, ins.modifiers)) else Err(ModifierLimitReached)
  {
    FlatMapSingle(ins, Builder(build));
  }

  /** A fragment `body}rest`, with no `}` in `body`, holds the instruction parsed from `body`. */
  lemma TerminatedFragment(body: string, post: string)
    requires '}' !in body
    ensures TokenOf(body + "}" + post) == [ParseInstruction(body)]
  {
    var frag := body + "}" + post;
    assert frag[..|body|] == body;
    InstructionBody(frag, |body|);
  }

  /** A message with exactly one `{` has one fragment: everything after it. */
  lemma OneFragment(pre: string, rest: string)
    requires '{' !in pre && '{' !in rest
    ensures Fragments(pre + "{" + rest) == [rest]
  {
    SplitWithoutSeparator(pre, '{');
    SplitWithoutSeparator(rest, '{');
    FragmentsAfter(pre, rest);
  }

  /** The text of an instruction whose key and modifiers are free of `c` is free of `c`. */
  lemma InstructionFree(key: string, mods: seq<string>, c: char)
    requires c != '+' && c !in key
    requires forall i :: 0 <= i < |mods| ==> c !in mods[i]
    ensures c !in Join([key] + mods, '+')
  {
    JoinFree([key] + mods, '+', c);
  }

  /** A join of pieces free of a character `c` other than the separator is free of `c`. */
  lemma {:induction false} JoinFree(pieces: seq<string>, sep: char, c: char)
    requires |pieces| >= 1 && c != sep
    requires forall i :: 0 <= i < |pieces| ==> c !in pieces[i]
    ensures c !in Join(pieces, sep)
    decreases |pieces|
  {
    if |pieces| > 1 {
      JoinFree(pieces[1..], sep, c);
    }
  }

  /** `{key+a+b+c}` has key `key` and modifiers `a`, `b`, `c`, in that order. */
  lemma ParseExample()
    ensures ParseInstruction("key+a+b+c") == Instruction("key", ["a", "b", "c"])
  {
    var pieces := ["key", "a", "b", "c"];
    assert Join(pieces[3..], '+') == "c";
    assert Join(pieces[2..], '+') == "b+c";
    assert Join(pieces[1..], '+') == "a+b+c";
    assert Join(pieces, '+') == "key+a+b+c";
    JoinThenParse("key", ["a", "b", "c"]);
  }

  /** In `a {bad b {valid}` the unterminated `{bad b ` is skipped and only `valid`
      (with no modifiers) reaches the builder. */
  lemma SkipExample<D>(build: (string, seq<string>) -> seq<D>)
    ensures Extract("a {bad b {valid}", build) == Ok(build("valid", []))
  {
    var body: string := "valid";
    assert Join([body] + [], '+') == body;
    SingleInstruction("a ", body, [], "", build);
    UnterminatedInstructionIgnored("a ", "bad b ", body + "}", build);
    assert "a {bad b {valid}" == "a " + "{" + "bad b " + "{" + (body + "}");
    assert "a " + "{" + (body + "}") == "a " + "{" + body + "}" + "";
  }
}
