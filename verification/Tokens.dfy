/** Tokens of the PTX lexer and the parser's classification of their kinds. */
module Tokens {

  datatype TokenKind =
    | Eof | Error | Whitespace | LineComment | BlockComment
    | Comma | Dot | Colon | Semicolon | At | Pipe | Exclamation
    | LParen | RParen | LBracket | RBracket | LBrace | RBrace
    | Lt | Gt | LtEq | GtEq | ShiftLeft | ShiftRight | Minus | Plus | Star | Slash | Percent
    | Amp | AmpAmp | Caret | PipePipe | Tilde | Question | Eq | EqEq | NotEq
    | F32Hex | F64Hex | Hex | F64 | Decimal | String | WarpSz
    | Ident | DotIdent
    | DotVersion | DotTarget | DotAddressSize | DotLoc | DotPragma | DotFile | DotSection
    | DotExtern | DotVisible | DotWeak | DotCommon
    | DotEntry | DotFunc
    | DotCallPrototype | DotCallTargets | DotBranchTargets
    | DotMaxnreg | DotMaxntid | DotReqntid | DotMinnctapersm | DotReqnctapercluster
    | DotExplicitcluster | DotMaxclusterrank | DotNoreturn
    | DotReg | DotAlign | DotPtr | DotGlobal | DotTex | DotConst | DotShared | DotLocal | DotParam
    | Binary | DotMaxnctapersm | AtAtDwarf

  datatype Trivia = Trivia(kind: TokenKind, text: string)

  /** A lossless token: its spelling and the trivia before it. */
  datatype PtxToken = PtxToken(kind: TokenKind, text: string, leadingTrivia: seq<Trivia>)

  /** What the lexer keeps returning after the end of the source. */
  const EMPTY_EOF := PtxToken(Eof, "", [])

  /** The token with id `i` in a token stream that goes on with empty end tokens. */
  function TokenAt(toks: seq<PtxToken>, i: nat): PtxToken {
    if i < |toks| then toks[i] else EMPTY_EOF
  }

  predicate IsTrivia(kind: TokenKind) {
    kind.Whitespace? || kind.LineComment? || kind.BlockComment?
  }

  predicate IsConstantLiteral(kind: TokenKind) {
    kind.Decimal? || kind.Hex? || kind.Binary? || kind.F32Hex? || kind.F64Hex? || kind.F64? || kind.WarpSz?
  }

  predicate IsIntegerLiteral(kind: TokenKind) {
    kind.Decimal? || kind.Hex? || kind.Binary?
  }

  predicate IsIdentifierToken(kind: TokenKind) {
    kind.Ident? || kind.DotIdent?
  }

  predicate IsConstantBinaryOperator(kind: TokenKind) {
    || kind.PipePipe? || kind.AmpAmp? || kind.Pipe? || kind.Caret? || kind.Amp? || kind.EqEq? || kind.NotEq?
    || kind.Lt? || kind.LtEq? || kind.Gt? || kind.GtEq? || kind.ShiftLeft? || kind.ShiftRight?
    || kind.Plus? || kind.Minus? || kind.Star? || kind.Slash? || kind.Percent?
  }

  predicate IsConstantUnaryOperator(kind: TokenKind) {
    kind.Plus? || kind.Minus? || kind.Exclamation? || kind.Tilde?
  }

  /** How tightly a binary operator binds; other kinds are below every level. */
  function ConstantBinaryPrecedence(kind: TokenKind): (p: int)
    ensures if IsConstantBinaryOperator(kind) then 1 <= p <= 10 else p == -1
  {
    if kind.PipePipe? then 1
    else if kind.AmpAmp? then 2
    else if kind.Pipe? then 3
    else if kind.Caret? then 4
    else if kind.Amp? then 5
    else if kind.EqEq? || kind.NotEq? then 6
    else if kind.Lt? || kind.LtEq? || kind.Gt? || kind.GtEq? then 7
    else if kind.ShiftLeft? || kind.ShiftRight? then 8
    else if kind.Plus? || kind.Minus? then 9
    else if kind.Star? || kind.Slash? || kind.Percent? then 10
    else -1
  }
}
