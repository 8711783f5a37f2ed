/**
 * Prompt templates with `{{name}}` placeholders, and what a chain of global replacements, one
 * placeholder at a time, does to them.
 *
 * A template is a sequence of segments: literal text and placeholders. Its text is the
 * concatenation of the segments, each placeholder written as its token `{{name}}`. The central
 * fact is `SubstRenders`: replacing every occurrence of one token in the text of a well-formed
 * template is the same as substituting that placeholder's segments.
 */
module Templates {
  import opened Strings

  // ---------------------------------------------------------------------------------------------
  // Placeholders and their tokens
  // ---------------------------------------------------------------------------------------------

  /** The eight placeholders of the structured prompt. */
  datatype Placeholder =
    | FirmNameClause | ContactName | CompanyName | SenderName
    | NewsContext | RoleContext | ToneInstruction | LengthInstruction

  function Name(p: Placeholder): string {
    match p
    case FirmNameClause => "firmNameClause"
    case ContactName => "contactName"
    case CompanyName => "companyName"
    case SenderName => "senderName"
    case NewsContext => "newsContext"
    case RoleContext => "roleContext"
    case ToneInstruction => "toneInstruction"
    case LengthInstruction => "lengthInstruction"
  }

  predicate IsLetter(c: char) {
    'a' <= c <= 'z' || 'A' <= c <= 'Z'
  }

  lemma NameLetters(p: Placeholder)
    ensures |Name(p)| > 0
    ensures forall i :: 0 <= i < |Name(p)| ==> IsLetter(Name(p)[i])
  {
  }

  lemma NameInjective(p: Placeholder, q: Placeholder)
    ensures Name(p) == Name(q) ==> p == q
  {
  }

  /** The text `{{name}}` that marks placeholder `p` in a template. */
  function Token(p: Placeholder): (r: string)
    ensures |r| == |Name(p)| + 4
    ensures r[0] == '{' && r[1] == '{' && r[|r| - 2] == '}' && r[|r| - 1] == '}'
    ensures r[2..|r| - 2] == Name(p)
  {
    "{{" + Name(p) + "}}"
  }

  lemma TokenHasNoDollar(p: Placeholder)
    ensures '$' !in Token(p)
  {
    NameLetters(p);
    var t := Token(p);
    forall i | 0 <= i < |t|
      ensures t[i] != '$'
    {
      if 2 <= i < |t| - 2 {
        assert t[i] == Name(p)[i - 2];
      }
    }
  }

  /** Inside a token, `{` occurs only at its first two characters and `}` only at its last two. */
  lemma TokenShape(p: Placeholder)
    ensures forall j :: 2 <= j < |Token(p)| ==> Token(p)[j] != '{'
    ensures forall j :: 0 <= j < |Token(p)| - 2 ==> Token(p)[j] != '}'
  {
    NameLetters(p);
    var t := Token(p);
    forall j | 2 <= j < |t| - 2
      ensures t[j] != '{' && t[j] != '}'
    {
      assert t[j] == Name(p)[j - 2];
    }
  }

  /**
   * Where an occurrence of token `p` can start inside the text of token `q`: only at its first
   * character, and only when `p` and `q` are the same placeholder.
   */
  lemma TokenOccurrence(q: Placeholder, rest: string, p: Placeholder, i: nat)
    requires i < |Token(q)| && OccursAt(Token(q) + rest, Token(p), i)
    ensures i == 0 && p == q
  {
    var s, tp, tq := Token(q) + rest, Token(p), Token(q);
    TokenShape(p);
    TokenShape(q);
    assert s[i..i + |tp|] == tp;
    assert s[i] == tp[0] && s[i + 1] == tp[1];
    assert i == 0;
    assert |tp| == |tq| by {
      assert s[|tq| - 2] == tq[|tq| - 2];
      assert s[|tp| - 2] == tp[|tp| - 2];
    }
    assert tp == tq;
    NameInjective(p, q);
  }

  /** No occurrence of a token starts inside another token and runs past its end. */
  lemma TokenNoAcross(q: Placeholder, rest: string, p: Placeholder)
    ensures NoOccurrenceAcross(Token(q), rest, Token(p))
  {
    forall i: nat | i < |Token(q)| < i + |Token(p)|
      ensures !OccursAt(Token(q) + rest, Token(p), i)
    {
      if OccursAt(Token(q) + rest, Token(p), i) {
        TokenOccurrence(q, rest, p, i);
      }
    }
  }

  /** A token contains no other token. */
  lemma TokenNotInToken(q: Placeholder, p: Placeholder)
    requires p != q
    ensures !Contains(Token(q), Token(p))
  {
    if Contains(Token(q), Token(p)) {
      var i: nat :| i <= |Token(q)| && OccursAt(Token(q), Token(p), i);
      assert Token(q) + "" == Token(q);
      TokenOccurrence(q, "", p, i);
    }
  }

  // ---------------------------------------------------------------------------------------------
  // Plain text
  // ---------------------------------------------------------------------------------------------

  /**
   * Text in which no token can occur, and from which no token can start: `{{` does not occur
   * in it and it does not end with `{`.
   */
  predicate Plain(s: string) {
    !Contains(s, "{{") && (|s| == 0 || s[|s| - 1] != '{')
  }

  lemma DoubleBraceAt(s: string, i: nat)
    requires i + 1 < |s| && s[i] == '{' && s[i + 1] == '{'
    ensures Contains(s, "{{")
  {
    assert s[i..i + 2] == "{{";
    assert OccursAt(s, "{{", i);
  }

  lemma PlainHasNoToken(s: string, p: Placeholder)
    requires Plain(s)
    ensures !Contains(s, Token(p))
  {
    if Contains(s, Token(p)) {
      var i: nat :| i <= |s| && OccursAt(s, Token(p), i);
      var t := Token(p);
      assert s[i] == s[i..i + |t|][0] == '{';
      assert s[i + 1] == s[i..i + |t|][1] == '{';
      DoubleBraceAt(s, i);
    }
  }

  lemma PlainNoAcross(s: string, rest: string, p: Placeholder)
    requires Plain(s)
    ensures NoOccurrenceAcross(s, rest, Token(p))
  {
    var t := Token(p);
    forall i: nat | i < |s| < i + |t|
      ensures !OccursAt(s + rest, t, i)
    {
      if OccursAt(s + rest, t, i) {
        var x := s + rest;
        assert x[i] == x[i..i + |t|][0] == '{';
        assert x[i + 1] == x[i..i + |t|][1] == '{';
        if i + 1 < |s| {
          assert s[i] == x[i] && s[i + 1] == x[i + 1];
          DoubleBraceAt(s, i);
        }
      }
    }
  }

  /** Plain text stays plain under concatenation. */
  lemma PlainConcat(a: string, b: string)
    requires Plain(a) && Plain(b)
    ensures Plain(a + b)
  {
    var s := a + b;
    if Contains(s, "{{") {
      var i: nat :| i <= |s| && OccursAt(s, "{{", i);
      assert s[i] == s[i..i + 2][0] == '{' && s[i + 1] == s[i..i + 2][1] == '{';
      if i + 1 < |a| {
        assert a[i] == s[i] && a[i + 1] == s[i + 1];
        DoubleBraceAt(a, i);
      } else if i >= |a| {
        assert b[i - |a|] == s[i] && b[i - |a| + 1] == s[i + 1];
        DoubleBraceAt(b, i - |a|);
      }
    }
    if |b| == 0 {
      assert s == a;
    } else {
      assert s[|s| - 1] == b[|b| - 1];
    }
  }

  // ---------------------------------------------------------------------------------------------
  // Templates
  // ---------------------------------------------------------------------------------------------

  datatype Segment = Text(s: string) | Hole(p: Placeholder)

  type Template = seq<Segment>

  function RenderSegment(seg: Segment): string {
    match seg
    case Text(s) => s
    case Hole(p) => Token(p)
  }

  /** The text of a template. */
  function Render(t: Template): string
    decreases |t|
  {
    if |t| == 0 then "" else RenderSegment(t[0]) + Render(t[1..])
  }

  /** Every literal text of the template is plain. */
  predicate WellFormed(t: Template) {
    forall i :: 0 <= i < |t| ==> t[i].Text? ==> Plain(t[i].s)
  }

  /** A segment that may be put in place of a placeholder without breaking well-formedness. */
  predicate Insertable(seg: Segment) {
    seg.Hole? || Plain(seg.s)
  }

  /** Each placeholder `p` of the template replaced by `seg`. */
  function Subst(t: Template, p: Placeholder, seg: Segment): (r: Template)
    ensures |r| == |t|
  {
    seq(|t|, i requires 0 <= i < |t| => if t[i] == Hole(p) then seg else t[i])
  }

  lemma SubstTail(t: Template, p: Placeholder, seg: Segment)
    requires |t| > 0
    ensures Subst(t, p, seg)[0] == (if t[0] == Hole(p) then seg else t[0])
    ensures Subst(t, p, seg)[1..] == Subst(t[1..], p, seg)
  {
  }

  /** Substitution keeps a template well-formed. */
  lemma SubstWellFormed(t: Template, p: Placeholder, seg: Segment)
    requires WellFormed(t) && Insertable(seg)
    ensures WellFormed(Subst(t, p, seg))
  {
  }

  /** After substituting `p` by something else, no placeholder `p` remains. */
  lemma SubstRemoves(t: Template, p: Placeholder, seg: Segment)
    requires seg != Hole(p)
    ensures Hole(p) !in Subst(t, p, seg)
  {
  }

  lemma WellFormedTail(t: Template)
    requires WellFormed(t) && |t| > 0
    ensures Insertable(t[0]) && WellFormed(t[1..])
  {
    assert forall i :: 0 <= i < |t[1..]| ==> t[1..][i] == t[i + 1];
  }

  /**
   * The token of `p` neither straddles the end of the text of a literal or placeholder
   * segment nor occurs inside it, unless the segment is placeholder `p` itself.
   */
  lemma SegmentOccurrences(head: Segment, rest: string, p: Placeholder)
    requires Insertable(head)
    ensures NoOccurrenceAcross(RenderSegment(head), rest, Token(p))
    ensures head != Hole(p) ==> !Contains(RenderSegment(head), Token(p))
  {
    match head
    case Text(s) =>
      PlainNoAcross(s, rest, p);
      PlainHasNoToken(s, p);
    case Hole(q) =>
      TokenNoAcross(q, rest, p);
      if q != p {
        TokenNotInToken(q, p);
      }
  }

  /**
   * Replacing every occurrence of the token of `p` in the text of a well-formed template gives
   * the text of the template with `p` substituted: no occurrence lies inside literal text or
   * straddles two segments.
   */
  lemma {:induction false} SubstRenders(t: Template, p: Placeholder, seg: Segment)
    requires WellFormed(t)
    ensures ReplaceLiteral(Render(t), Token(p), RenderSegment(seg)) == Render(Subst(t, p, seg))
    decreases |t|
  {
    if |t| > 0 {
      var tp, v := Token(p), RenderSegment(seg);
      var head, rest := RenderSegment(t[0]), Render(t[1..]);
      WellFormedTail(t);
      SubstRenders(t[1..], p, seg);
      SubstTail(t, p, seg);
      if t[0] == Hole(p) {
        ReplaceLiteralMatch(tp, rest, v);
      } else {
        SegmentOccurrences(t[0], rest, p);
        ReplaceLiteralAbsent(head, tp, v);
        ReplaceLiteralConcat(head, rest, tp, v);
      }
    }
  }

  /** The text of a template holds the text of each of its segments. */
  lemma {:induction false} RenderContainsSegment(t: Template, k: nat)
    requires k < |t|
    ensures Contains(Render(t), RenderSegment(t[k]))
    decreases |t|
  {
    var head, rest := RenderSegment(t[0]), Render(t[1..]);
    if k == 0 {
      assert (head + rest)[..|head|] == head;
      assert OccursAt(head + rest, head, 0);
    } else {
      RenderContainsSegment(t[1..], k - 1);
      var x := RenderSegment(t[k]);
      assert t[1..][k - 1] == t[k];
      var i: nat :| i <= |rest| && OccursAt(rest, x, i);
      OccursAfter(head, rest, x, i);
    }
  }

  /**
   * In the text of a well-formed template the token of `p` occurs exactly when the template
   * has a placeholder `p`.
   */
  lemma TokensAreHoles(t: Template, p: Placeholder)
    requires WellFormed(t)
    ensures Contains(Render(t), Token(p)) <==> Hole(p) in t
  {
    if Hole(p) in t {
      var k :| 0 <= k < |t| && t[k] == Hole(p);
      RenderContainsSegment(t, k);
    }
    if Hole(p) !in t {
      TokenComesFromHole(t, p);
    }
  }

  lemma {:induction false} TokenComesFromHole(t: Template, p: Placeholder)
    requires WellFormed(t) && Hole(p) !in t
    ensures !Contains(Render(t), Token(p))
    decreases |t|
  {
    if |t| > 0 {
      WellFormedTail(t);
      assert Hole(p) !in t[1..];
      TokenComesFromHole(t[1..], p);
      HeadFree(t, p);
      TailFree(t, Token(p));
    }
  }

  lemma HeadFree(t: Template, p: Placeholder)
    requires WellFormed(t) && |t| > 0 && t[0] != Hole(p)
    ensures forall i: nat :: i < |RenderSegment(t[0])| ==> !OccursAt(Render(t), Token(p), i)
  {
    forall i: nat | i < |RenderSegment(t[0])|
      ensures !OccursAt(Render(t), Token(p), i)
    {
      InsideHead(t, p, i);
    }
  }

  lemma TailFree(t: Template, x: string)
    requires |t| > 0 && !Contains(Render(t[1..]), x)
    ensures forall i: nat :: |RenderSegment(t[0])| <= i ==> !OccursAt(Render(t), x, i)
  {
    var head, rest := RenderSegment(t[0]), Render(t[1..]);
    forall i: nat | |head| <= i
      ensures !OccursAt(Render(t), x, i)
    {
      OccursAfter(head, rest, x, i - |head|);
    }
  }

  /** No occurrence of the token of `p` starts inside the first segment unless that is `p`. */
  lemma InsideHead(t: Template, p: Placeholder, i: nat)
    requires WellFormed(t) && |t| > 0 && t[0] != Hole(p) && i < |RenderSegment(t[0])|
    ensures !OccursAt(Render(t), Token(p), i)
  {
    var tp, h, rest := Token(p), RenderSegment(t[0]), Render(t[1..]);
    WellFormedTail(t);
    SegmentOccurrences(t[0], rest, p);
    if i + |tp| <= |h| {
      OccursBefore(h, rest, tp, i);
    }
  }

  /** A template without placeholders whose texts are plain has plain text. */
  lemma {:induction false} RenderPlain(t: Template)
    requires WellFormed(t)
    requires forall i :: 0 <= i < |t| ==> t[i].Text?
    ensures Plain(Render(t))
    decreases |t|
  {
    if |t| > 0 {
      assert WellFormed(t[1..]) by {
        forall i | 0 <= i < |t[1..]| && t[1..][i].Text?
          ensures Plain(t[1..][i].s)
        {
          assert t[1..][i] == t[i + 1];
        }
      }
      assert forall i :: 0 <= i < |t[1..]| ==> t[1..][i] == t[i + 1];
      RenderPlain(t[1..]);
      assert Plain(t[0].s);
      PlainConcat(t[0].s, Render(t[1..]));
    } else {
      assert !OccursAt("", "{{", 0);
    }
  }

  // ---------------------------------------------------------------------------------------------
  // Chains of replacements
  // ---------------------------------------------------------------------------------------------

  /** `s.replace(token₁, value₁).replace(token₂, value₂)…`, each a global replacement. */
  function ReplaceChain(s: string, steps: seq<(Placeholder, string)>): string
    decreases |steps|
  {
    if |steps| == 0 then s
    else ReplaceChain(ReplaceAll(s, Token(steps[0].0), steps[0].1), steps[1..])
  }

  /** The substitutions of `steps`, applied in order. */
  function SubstChain(t: Template, steps: seq<(Placeholder, Segment)>): Template
    decreases |steps|
  {
    if |steps| == 0 then t else SubstChain(Subst(t, steps[0].0, steps[0].1), steps[1..])
  }

  /** A hole that no step of the chain names stays where it is. */
  lemma {:induction false} ChainKeepsHole(t: Template, segments: seq<(Placeholder, Segment)>,
                                          j: nat, q: Placeholder)
    requires j < |t| && t[j] == Hole(q)
    requires forall i :: 0 <= i < |segments| ==> segments[i].0 != q
    ensures j < |SubstChain(t, segments)| && SubstChain(t, segments)[j] == Hole(q)
    decreases |segments|
  {
    if |segments| > 0 {
      var t1 := Subst(t, segments[0].0, segments[0].1);
      assert t1[j] == Hole(q);
      assert forall i :: 0 <= i < |segments[1..]| ==> segments[1..][i] == segments[i + 1];
      ChainKeepsHole(t1, segments[1..], j, q);
    }
  }

  /**
   * A hole of the placeholder of step `k`, which no earlier step names, becomes the hole of `q`
   * at step `k`, and no later step names `q`.
   */
  lemma {:induction false} ChainPutsHole(t: Template, segments: seq<(Placeholder, Segment)>,
                                         j: nat, k: nat, q: Placeholder)
    requires k < |segments| && j < |t| && t[j] == Hole(segments[k].0)
    requires segments[k].1 == Hole(q)
    requires forall i :: 0 <= i < k ==> segments[i].0 != segments[k].0
    requires forall i :: k < i < |segments| ==> segments[i].0 != q
    ensures j < |SubstChain(t, segments)| && SubstChain(t, segments)[j] == Hole(q)
    decreases k
  {
    var t1 := Subst(t, segments[0].0, segments[0].1);
    var rest := segments[1..];
    assert forall i :: 0 <= i < |rest| ==> rest[i] == segments[i + 1];
    if k == 0 {
      assert t1[j] == Hole(q);
      ChainKeepsHole(t1, rest, j, q);
    } else {
      assert t1[j] == t[j];
      ChainPutsHole(t1, rest, j, k - 1, q);
    }
  }

  /**
   * Replacing `q` by the hole of `r` at the second step, just before `r` is replaced by `x`, is
   * replacing `q` by `x` directly.
   */
  lemma ChainThroughHole(t: Template, segments: seq<(Placeholder, Segment)>, q: Placeholder,
                         r: Placeholder, x: Segment)
    requires |segments| >= 3 && segments[1] == (q, x) && segments[2] == (r, x)
    ensures SubstChain(t, segments[1 := (q, Hole(r))]) == SubstChain(t, segments)
  {
    var a := segments[1 := (q, Hole(r))];
    var rest := segments[3..];
    assert a[1..][1..][1..] == rest && segments[1..][1..][1..] == rest;
    var t1 := Subst(t, segments[0].0, segments[0].1);
    var u := Subst(Subst(t1, q, Hole(r)), r, x);
    assert u == Subst(Subst(t1, q, x), r, x);
    assert SubstChain(t, a) == SubstChain(u, rest) by {
      assert SubstChain(t, a) == SubstChain(t1, a[1..]);
      assert SubstChain(t1, a[1..]) == SubstChain(Subst(t1, q, Hole(r)), a[1..][1..]);
    }
    assert SubstChain(t, segments) == SubstChain(u, rest) by {
      assert SubstChain(t, segments) == SubstChain(t1, segments[1..]);
      assert SubstChain(t1, segments[1..]) == SubstChain(Subst(t1, q, x), segments[1..][1..]);
    }
  }

  /** `steps` is `segments` written out as text, with no `$` in any value. */
  predicate Spells(steps: seq<(Placeholder, string)>, segments: seq<(Placeholder, Segment)>) {
    && |steps| == |segments|
    && forall i :: 0 <= i < |steps| ==>
         && steps[i].0 == segments[i].0
         && steps[i].1 == RenderSegment(segments[i].1)
         && '$' !in steps[i].1
  }

  /**
   * A chain of global replacements on the text of a well-formed template, each value plain text
   * or a single token without `$`, is the chain of substitutions on the template.
   */
  lemma {:induction false} ChainRenders(t: Template, steps: seq<(Placeholder, string)>,
                                        segments: seq<(Placeholder, Segment)>)
    requires WellFormed(t)
    requires Spells(steps, segments)
    requires forall i :: 0 <= i < |segments| ==> Insertable(segments[i].1)
    ensures ReplaceChain(Render(t), steps) == Render(SubstChain(t, segments))
    decreases |steps|
  {
    if |steps| > 0 {
      var p, seg := segments[0].0, segments[0].1;
      ReplaceAllIsLiteral(Render(t), Token(p), steps[0].1);
      SubstRenders(t, p, seg);
      SubstWellFormed(t, p, seg);
      assert Spells(steps[1..], segments[1..]) by {
        forall i | 0 <= i < |steps[1..]|
          ensures steps[1..][i].0 == segments[1..][i].0
          ensures steps[1..][i].1 == RenderSegment(segments[1..][i].1) && '$' !in steps[1..][i].1
        {
          assert steps[1..][i] == steps[i + 1] && segments[1..][i] == segments[i + 1];
        }
      }
      assert forall i :: 0 <= i < |segments[1..]| ==> segments[1..][i] == segments[i + 1];
      ChainRenders(Subst(t, p, seg), steps[1..], segments[1..]);
    }
  }

  // ---------------------------------------------------------------------------------------------
  // Filling a template
  // ---------------------------------------------------------------------------------------------

  /** Each placeholder of `t` that is in `filled` replaced by the literal text of its value. */
  function Fill(t: Template, filled: set<Placeholder>, value: Placeholder -> string): (r: Template)
    ensures |r| == |t|
  {
    seq(|t|, i requires 0 <= i < |t| =>
      if t[i].Hole? && t[i].p in filled then Text(value(t[i].p)) else t[i])
  }

  /** Substituting the value of one more placeholder fills one more placeholder. */
  lemma FillOneMore(t: Template, filled: set<Placeholder>, value: Placeholder -> string,
                    p: Placeholder)
    ensures Subst(Fill(t, filled, value), p, Text(value(p))) == Fill(t, filled + {p}, value)
  {
  }

  /** The steps `(p, value(p))`, for each `p` of `order` in turn. */
  function TextSteps(order: seq<Placeholder>, value: Placeholder -> string)
    : (r: seq<(Placeholder, Segment)>)
    ensures |r| == |order|
  {
    seq(|order|, i requires 0 <= i < |order| => (order[i], Text(value(order[i]))))
  }

  /** Substituting the values of the placeholders of `order` fills exactly those placeholders. */
  lemma {:induction false} SubstChainFills(t: Template, filled: set<Placeholder>,
                                           order: seq<Placeholder>, value: Placeholder -> string)
    ensures SubstChain(Fill(t, filled, value), TextSteps(order, value))
         == Fill(t, filled + (set p | p in order), value)
    decreases |order|
  {
    var steps := TextSteps(order, value);
    if |order| == 0 {
      assert filled + (set p | p in order) == filled;
    } else {
      var p := order[0];
      FillOneMore(t, filled, value, p);
      assert steps[1..] == TextSteps(order[1..], value);
      SubstChainFills(t, filled + {p}, order[1..], value);
      assert (filled + {p}) + (set q | q in order[1..]) == filled + (set q | q in order);
    }
  }

  /** Filling nothing changes nothing. */
  lemma FillNothing(t: Template, value: Placeholder -> string)
    ensures Fill(t, {}, value) == t
  {
  }

  /** With every placeholder filled, no placeholder is left. */
  lemma FillAllIsText(t: Template, filled: set<Placeholder>, value: Placeholder -> string)
    requires forall p: Placeholder :: p in filled
    ensures forall i :: 0 <= i < |Fill(t, filled, value)| ==> Fill(t, filled, value)[i].Text?
  {
  }

  /** Filling a well-formed template with plain values keeps it well-formed. */
  lemma FillWellFormed(t: Template, filled: set<Placeholder>, value: Placeholder -> string)
    requires WellFormed(t)
    requires forall p :: p in filled ==> Plain(value(p))
    ensures WellFormed(Fill(t, filled, value))
  {
  }

  /** The replacements `(p, value(p))`, for each `p` of `order` in turn. */
  function ValueSteps(order: seq<Placeholder>, value: Placeholder -> string)
    : (r: seq<(Placeholder, string)>)
    ensures |r| == |order|
  {
    seq(|order|, i requires 0 <= i < |order| => (order[i], value(order[i])))
  }

  /** The replacements by the values of `order`, none holding `$`, spell its text steps. */
  lemma SpellsValues(order: seq<Placeholder>, value: Placeholder -> string)
    requires forall i :: 0 <= i < |order| ==> '$' !in value(order[i])
    ensures Spells(ValueSteps(order, value), TextSteps(order, value))
  {
  }

  /**
   * The replacements by the values of `order` spell the text steps of `value`, except at
   * position `k`, whose replacement is the token of `q` and spells the hole of `q`.
   */
  lemma SpellsWithHole(order: seq<Placeholder>, value: Placeholder -> string,
                       value': Placeholder -> string, k: nat, q: Placeholder)
    requires k < |order|
    requires value'(order[k]) == Token(q)
    requires forall i :: 0 <= i < |order| && i != k ==>
               value'(order[i]) == value(order[i]) && '$' !in value(order[i])
    ensures Spells(ValueSteps(order, value'), TextSteps(order, value)[k := (order[k], Hole(q))])
  {
    TokenHasNoDollar(q);
  }

  /**
   * Replacing, in turn, every occurrence of the token of each placeholder of `order` by its
   * value fills exactly those placeholders, when the template is well-formed and every value
   * is plain text without `$`. When `order` names every placeholder, no token is left.
   */
  lemma FillByReplacement(t: Template, order: seq<Placeholder>, value: Placeholder -> string)
    requires WellFormed(t)
    requires forall p :: p in order ==> Plain(value(p)) && '$' !in value(p)
    ensures ReplaceChain(Render(t), ValueSteps(order, value))
         == Render(Fill(t, (set p | p in order), value))
    ensures (forall p: Placeholder :: p in order) ==>
              forall p: Placeholder :: !Contains(ReplaceChain(Render(t), ValueSteps(order, value)), Token(p))
  {
    var steps, segments := ValueSteps(order, value), TextSteps(order, value);
    assert Spells(steps, segments);
    assert forall i :: 0 <= i < |segments| ==> Insertable(segments[i].1);
    ChainRenders(t, steps, segments);
    FillNothing(t, value);
    SubstChainFills(t, {}, order, value);
    assert {} + (set p | p in order) == set p | p in order;
    if forall p: Placeholder :: p in order {
      var filled := Fill(t, (set p | p in order), value);
      FillAllIsText(t, (set p | p in order), value);
      FillWellFormed(t, (set p | p in order), value);
      RenderPlain(filled);
      forall p: Placeholder
        ensures !Contains(Render(filled), Token(p))
      {
        PlainHasNoToken(Render(filled), p);
      }
    }
  }
}
