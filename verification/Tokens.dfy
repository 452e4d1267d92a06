/** Tokens as the expression parser sees them, and the token list it consumes
    (hzcc/parser/common/token_type.h, hzcc/utils/cached_list.h). */
module Tokens {

  datatype Symbol =
    | Comma
    | Assign | AddAssign | SubAssign | MulAssign | DivAssign | ModAssign
    | LShiftAssign | RShiftAssign | AndAssign | XorAssign | OrAssign
    | Question | Colon
    | LogicalOr | LogicalAnd | BitOr | BitXor | BitAnd
    | EQ | NE | Less | Greater | LE | GE
    | LShift | RShift | Add | Sub | Mul | Div | Mod
    | BitNot | LogicalNot | Inc | Dec | Sizeof
    | LParen | RParen | LBracket | RBracket | LBrace | RBrace
    | Dot | Arrow | SemiColon | Struct | Enum | Else | OtherKeyword

  datatype LitKind = CharLit | IntLit | RealLit

  /** `End` is what reading past the last token gives; `Type` is the name of a primitive type. */
  datatype Token =
    | Sym(sym: Symbol)
    | Ident(name: string)
    | Lit(kind: LitKind, text: string)
    | Str(text: string)
    | Type(name: string)
    | Qualifier(name: string)
    | End

  function First(toks: seq<Token>): Token {
    if toks == [] then End else toks[0]
  }

  function Tail(toks: seq<Token>): seq<Token> {
    if toks == [] then [] else toks[1..]
  }

  predicate Clean(toks: seq<Token>) {
    forall i :: 0 <= i < |toks| ==> !toks[i].Qualifier?
  }

  /** The leading qualifiers of a list, which `pop` sets aside. */
  function Qualifiers(toks: seq<Token>): (n: nat)
    ensures n <= |toks| && (n < |toks| ==> !toks[n].Qualifier?)
    ensures forall i :: 0 <= i < n ==> toks[i].Qualifier?
  {
    if toks == [] || !toks[0].Qualifier? then 0 else 1 + Qualifiers(toks[1..])
  }

  /** hzcc::utils::CachedList with qualifiers as its filter. */
  class CachedList {
    var tokens: seq<Token>
    var attributes: seq<Token>

    constructor (tokens: seq<Token>)
      ensures this.tokens == tokens && attributes == []
    {
      this.tokens, attributes := tokens, [];
    }

    /** Looks at the front only: on a qualifier the source would not return. */
    function Peek(): Token
      requires !First(tokens).Qualifier?
      reads this
    {
      First(tokens)
    }

    /** The first token that is no qualifier; the qualifiers before it are kept apart. */
    method Pop() returns (t: Token)
      modifies this
      ensures var n := Qualifiers(old(tokens));
              && t == First(old(tokens)[n..]) && tokens == Tail(old(tokens)[n..])
              && attributes == old(attributes) + old(tokens)[..n]
      ensures Clean(old(tokens)) ==>
                t == First(old(tokens)) && tokens == Tail(old(tokens)) && Clean(tokens) && attributes == old(attributes)
    {
      ghost var n := Qualifiers(tokens);
      ghost var k := 0;
      t := First(tokens);
      while t.Qualifier?
        invariant k <= n && tokens == old(tokens)[k..] && t == First(tokens)
        invariant attributes == old(attributes) + old(tokens)[..k]
        decreases |tokens|
      {
        tokens := Tail(tokens);
        attributes := attributes + [t];
        t := First(tokens);
        k := k + 1;
      }
      assert k == n;
      tokens := Tail(tokens);
    }

    method Push(t: Token)
      modifies this
      ensures tokens == [t] + old(tokens) && attributes == old(attributes)
    {
      tokens := [t] + tokens;
    }

    method CacheAttrList() returns (attrs: seq<Token>)
      modifies this
      ensures attrs == old(attributes) && attributes == [] && tokens == old(tokens)
    {
      attrs := attributes;
      attributes := [];
    }
  }
}
