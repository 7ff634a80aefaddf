# gramina front end and compiler rules, in Dafny

This project models the core of gramina, a small compiled language whose
compiler is written in C. The model covers four parts.

- **Lexer.** `gramina_lex` turns a byte stream into tokens. It uses a
  push-back slot and a peek slot in front of the stream, tracks line,
  column and depth positions, decodes escapes, reads numbers with their
  L/U/F suffixes, and skips comments. `lexspec.dfy` gives the lexer as pure
  functions over the input and a cursor. `lexer.dfy` is the C's
  `LexerState` as a class, whose methods are proved to compute exactly
  those functions. `lexprops.dfy` proves what the lexer promises: maximal
  munch, operator round trips, the suffix rule, where tokens are placed and
  the shape of the result.
- **Parser.** `gramina_parse` is a recursive-descent parser over the token
  list. It builds a tree linked through left and right children.
  `parsecore.dfy`, `parseexpr.dfy`, `parsestmt.dfy` and `parsedecl.dfy`
  give each rule as a function on a parser state: the cursor, the error
  flag and message, and a crash flag for the places where the C
  dereferences NULL or walks past EOF. `parser.dfy` is the C's
  `ParserState` as a class. Its methods update the cursor and the error in
  place and run the loops of `function_body`, `struct_def`,
  `global_statement`, `typename` and `gramina_parse`. Each method is proved
  equal to its rule. `parseprops.dfy` proves shape properties:
  - chains of binary operators nest to the right;
  - prefix and postfix operators nest as written;
  - the expression/declaration fallback of `statement`;
  - linking and unlinking statement chains.
- **Support library.**
  - strings (`str.c`), including the `format` mini-language;
  - the generic growable array (`array.h`);
  - the chained hash map (`hashmap.c`);
  - the command-line parser (`arg.c`);
  - `highlight_line` and the Optional helpers (`error.c`).
- **Compiler rules.**
  - types and conversions (`type.c`, `conversions.c`);
  - arithmetic and comparisons (`arithmetic.c`, `logic.c`);
  - loads, stores and addresses (`mem.c`);
  - operator codes (`op.c`);
  - scopes and reflection stacks (`identifier.c`, `stackops.c`).

  LLVM values are symbolic: a `Handle` records which builder call made it.

Positions in expression chains follow the C's `CHAIN_SELF` macro
(`src/parser/parser.c:46-63`). The node a `*_exp_pr` call builds carries
the position of the operator token that call was entered on. In `a o1 b o2
c` the outer node sits at `o1`, and so does the inner node for `b o2 c`:
each inner node carries the previous operator's position, not its own.
`ParseProps.TierRightNested` proves this.

Several behaviours are kept as the code has them and proved as lemmas:

| Behaviour | Lemma |
|---|---|
| A char literal's data stays 0: the lexer never stores the byte in `data._char`, so `lit_quoted` builds a VAL_CHAR of 0 | `LexProps.CharLiteralShape` |
| `factor` clears the error flag before trying a cast or a parenthesis, so an error raised just before it is forgotten | `ParseProps.FactorForgetsEarlierError` |
| A `for` without an initialiser dereferences NULL | `ParseProps.ForWithoutClausesCrashes` |
| `gramina_parse` links the statements after a failed first statement onto NULL | `ParseProps.LinkAfterFailedFirstCrashes` |

In the model these crashes are the parser state's `crashed` flag and the
`Crash` outcome.

## Model

| member | source | states |
|---|---|---|
| LexSpec.HexValue | src/parser/lexer.c:127-138 | a hex digit's value is below 16 |
| LexSpec.StepPos | src/parser/lexer.c:67-85 | reading CR or LF moves to column 0 of the next line; any other byte moves one column right; depth counts bytes |
| LexSpec.PosAfterSnoc | src/parser/lexer.c:67-85 | the position after one more byte is one StepPos from the position before it |
| LexSpec.EscapeDigitsShape | src/parser/lexer.c:184-218 | the \x and \o digit loops stay within the input and end with NONE, EOF or BAD_TOK; NONE only after all their digits; a message exactly with BAD_TOK |
| LexSpec.Escape | src/parser/lexer.c:144-226 | read_escape stays within the input and ends with NONE, EOF or BAD_TOK; success uses every byte it looked at; a message comes exactly with BAD_TOK |
| LexSpec.StringFrom | src/parser/lexer.c:228-260 | the body loop of read_stringlike stays within the input and ends with NONE, EOF or BAD_TOK, a message exactly with BAD_TOK |
| LexSpec.Stringlike | src/parser/lexer.c:228-260 | read_stringlike ends with NONE, EOF, NO_TOK or BAD_TOK, a message exactly with the last two; success uses at least both quotes |
| LexSpec.BlockEnd | src/parser/lexer.c:262-283 | the closing `*/` of a block comment is the first one whose slash lies at index 3 or later |
| LexSpec.BlockEndAt | src/parser/lexer.c:262-283 | BlockEnd is the one index with a closing pair and none before it |
| LexSpec.LineEnd | src/parser/lexer.c:285-302 | a line comment ends at the first newline, or at the end of the input |
| LexSpec.LineEndAt | src/parser/lexer.c:285-302 | LineEnd is the first newline at or after j |
| LexSpec.Comment | src/parser/lexer.c:304-333 | read_comment records no message; a comment read is at least two bytes; NO_TOK uses nothing; EOF runs to the end of the input |
| LexSpec.Operator | src/parser/lexer.c:335-567 | read_operator ends with NONE, EOF, NO_TOK or BAD_TOK; a token read uses at least one byte; NO_TOK uses none; a message exactly with BAD_TOK |
| LexSpec.OperatorByShape | src/parser/lexer.c:335-567 | the switch of read_operator, case by case, agrees with the spelling table |
| LexSpec.OperatorStartShape | src/parser/lexer.c:886-905 | read_token hands read_operator exactly the bytes its switch has a case for |
| LexSpec.WordEnd | src/parser/lexer.c:569-589 | the end of the run of letters, digits and underscores |
| LexSpec.WordEndAt | src/parser/lexer.c:569-589 | WordEnd is the first index from i that is not a word byte |
| LexSpec.Wordlike | src/parser/lexer.c:569-589 | read_wordlike ends with NONE, EOF or NO_TOK; a word read uses at least one byte; a message exactly with NO_TOK |
| LexSpec.NumeralFrom | src/parser/lexer.c:625-672 | the digit loop of read_number ends with NONE or EOF, with the byte it stopped at looked at but not used |
| LexSpec.SuffixRun | src/parser/lexer.c:674-690 | the suffix letters L, U and F in either case, in upper case |
| LexSpec.NumberType | src/parser/lexer.c:591-611 | NONE exactly for an unsigned floating literal |
| LexSpec.Number | src/parser/lexer.c:615-782 | read_number ends with NONE, EOF, NO_TOK or BAD_TOK; a literal read uses at least one byte and has a type other than NONE; a message only with NO_TOK or BAD_TOK |
| LexSpec.NumberTail | src/parser/lexer.c:674-782 | the suffix part of read_number ends with NONE or BAD_TOK; a literal's type is never NONE; a message only with BAD_TOK |
| LexSpec.Judgement | src/parser/lexer.c:692-745 | the verdict uses no byte; NONE keeps the numeral's text with a type other than NONE; a message only for an illegal suffix, with BAD_TOK |
| LexSpec.AsI32 | src/parser/lexer.c:749-752 | the value stored in data.i32 lies in the int32_t range |
| LexSpec.SpaceRun | src/parser/lexer.c:788-797 | the length of the leading white space |
| LexSpec.WordToken | src/parser/lexer.c:813-822 | a word token uses at least one byte and is an identifier or a keyword |
| LexSpec.NumberToken | src/parser/lexer.c:823-827 | a number token uses at least one byte and is neither EOF nor NONE |
| LexSpec.StringToken | src/parser/lexer.c:870-885 | a quote token uses at least one byte and is a double- or single-quoted literal |
| LexSpec.OperatorToken | src/parser/lexer.c:904-908 | an operator token uses at least one byte and is neither EOF nor NONE |
| LexSpec.Dispatch | src/parser/lexer.c:813-917 | read_token's switch: a token uses at least one byte and is neither EOF nor NONE; it ends with NONE, EOF, BAD_TOK or UNKNOWN_CHAR |
| LexSpec.TokenAt | src/parser/lexer.c:784-918 | read_token: a token or a comment uses at least one byte; the status is NONE, DONT_PUSH_TOK, EOF, BAD_TOK or UNKNOWN_CHAR; a message only with BAD_TOK |
| LexSpec.Kept | src/parser/lexer.c:47-55 | put_err keeps the first pending message |
| LexSpec.LexStep | src/parser/lexer.c:936-944 | one turn of gramina_lex's loop: going on moves the cursor forward and keeps the message; stopping keeps the tokens and ends with EOF, BAD_TOK or UNKNOWN_CHAR; a first message comes only with BAD_TOK |
| LexSpec.LexFrom | src/parser/lexer.c:936-944 | the loop of gramina_lex ends with EOF, BAD_TOK or UNKNOWN_CHAR within the input |
| LexStream.TrackedPos | src/parser/lexer.c:67-85 | the lexer's position field is the position after the bytes read so far |
| LexStream.Trace | src/parser/lexer.c:67-85 | the positions the stream passes through, one per byte read |
| Lexer.CheckSuffixLetters | src/parser/lexer.c:692-737 | the L/U/F counting loop of read_number decides exactly what the suffix check function decides |
| Lexer.LexerState.constructor | src/parser/lexer.c:921-932 | the state gramina_lex starts from: position (1,0,0), both slots empty, no tokens, no message |
| Lexer.LexerState.PutErr | src/parser/lexer.c:47-55 | only the first message is kept; a second one reports OCCUPIED and changes nothing |
| Lexer.LexerState.UnreadCh | src/parser/lexer.c:57-65 | the byte goes into the empty push-back slot, or OCCUPIED is reported |
| Lexer.LexerState.ReadCh | src/parser/lexer.c:67-85 | one byte from the stream, with the position stepped by it; EOF at the end of the input, with nothing changed |
| Lexer.LexerState.PeekCh | src/parser/lexer.c:87-105 | the push-back slot, else the peek slot, else a byte read into the peek slot; the logical input is unchanged |
| Lexer.LexerState.ConsumeCh | src/parser/lexer.c:107-125 | the byte looked at is dropped from the logical input |
| Lexer.LexerState.Advance | src/parser/lexer.c:107-125 | consume_ch then peek_ch: the next byte of the input is looked at |
| Lexer.LexerState.NextDigit | src/parser/lexer.c:184-218 | one turn of an escape's digit loop, weighing the digit in the base |
| Lexer.LexerState.DigitLoop | src/parser/lexer.c:184-218 | the \x and \o loops compute what Escape gives for them |
| Lexer.LexerState.ReadDigitEscape | src/parser/lexer.c:184-218 | the digit escapes, with their final consume |
| Lexer.LexerState.ReadEscape | src/parser/lexer.c:144-226 | read_escape leaves the stream, status, byte and message that Escape gives |
| Lexer.LexerState.ReadStringlike | src/parser/lexer.c:228-260 | read_stringlike leaves what Stringlike gives |
| Lexer.LexerState.StringBody | src/parser/lexer.c:238-259 | the loop of read_stringlike computes StringFrom |
| Lexer.LexerState.StringTurn | src/parser/lexer.c:240-255 | one turn of that loop is one step of StringFrom |
| Lexer.LexerState.StringEscape | src/parser/lexer.c:241-245 | the escape branch of a turn is StringFrom's escape step |
| Lexer.LexerState.BoundedCommentLoop | src/parser/lexer.c:262-283 | the block comment loop consumes through BlockEnd |
| Lexer.LexerState.LineCommentLoop | src/parser/lexer.c:285-302 | the line comment loop consumes up to LineEnd |
| Lexer.LexerState.ReadBoundedComment | src/parser/lexer.c:262-283 | read_bounded_comment as read_comment calls it |
| Lexer.LexerState.ReadLineComment | src/parser/lexer.c:285-302 | read_line_comment as read_comment calls it |
| Lexer.LexerState.ReadComment | src/parser/lexer.c:304-333 | read_comment leaves what Comment gives, pushing back a lone slash |
| Lexer.LexerState.ReadOperator | src/parser/lexer.c:335-567 | read_operator consumes the bytes and returns the type Operator gives |
| Lexer.LexerState.ReadExtensible | src/parser/lexer.c:335-567 | the cases where a second byte may extend the first agree with Operator |
| Lexer.LexerState.ReadDoublable | src/parser/lexer.c:404-454 | `&`, `\|` and `\\`, doubled and then extended by a backquote, agree with Operator |
| Lexer.LexerState.ReadWordlike | src/parser/lexer.c:569-589 | read_wordlike leaves what Wordlike gives |
| Lexer.LexerState.ReadWordRun | src/parser/lexer.c:579-588 | the word loop consumes exactly the run of word bytes |
| Lexer.LexerState.ReadNumber | src/parser/lexer.c:615-782 | read_number leaves what Number gives, with the integer value in the data |
| Lexer.LexerState.ReadNumeral | src/parser/lexer.c:625-672 | the digit loop computes NumeralFrom |
| Lexer.LexerState.NumeralTurn | src/parser/lexer.c:628-670 | one turn of the digit loop is one step of NumeralFrom |
| Lexer.LexerState.NumeralMark | src/parser/lexer.c:633-664 | the turn at a `.` or `e` is NumeralFrom's step there |
| Lexer.LexerState.ReadNumberTail | src/parser/lexer.c:674-782 | the rest of read_number leaves what NumberTail gives |
| Lexer.LexerState.Judge | src/parser/lexer.c:692-745 | the verdict on the suffix and type is Judgement's |
| Lexer.LexerState.SuffixLoop | src/parser/lexer.c:674-690 | the suffix loop collects SuffixRun |
| Lexer.LexerState.PosTracked | src/parser/lexer.c:67-85 | the position field is the position after the bytes read |
| Lexer.LexerState.SkipSpace | src/parser/lexer.c:788-797 | read_token's white-space loop consumes SpaceRun bytes |
| Lexer.LexerState.ReadToken | src/parser/lexer.c:784-918 | read_token leaves what TokenAt gives: status, token, position and message |
| Lexer.LexerState.TokenAfterSpace | src/parser/lexer.c:799-917 | read_token after the white space agrees with TokenAt |
| Lexer.LexerState.PlainToken | src/parser/lexer.c:807-917 | read_token at a byte other than a slash goes straight to the switch |
| Lexer.LexerState.SlashToken | src/parser/lexer.c:799-805 | a slash leads to a comment or to the operator path |
| Lexer.LexerState.CommentToken | src/parser/lexer.c:799-805 | after a whole comment the next byte is looked at and no token is pushed |
| Lexer.LexerState.SlashOperator | src/parser/lexer.c:799-918 | a slash that starts no complete comment is read as an operator |
| Lexer.LexerState.DispatchToken | src/parser/lexer.c:813-917 | the switch of read_token agrees with Dispatch |
| Lexer.LexerState.WordBranch | src/parser/lexer.c:813-822 | the word branch agrees with WordToken |
| Lexer.LexerState.NumberBranch | src/parser/lexer.c:823-827 | the number branch agrees with NumberToken |
| Lexer.LexerState.StringBranch | src/parser/lexer.c:870-885 | the quote branch agrees with StringToken |
| Lexer.LexerState.OperatorBranch | src/parser/lexer.c:904-908 | the operator branch agrees with OperatorToken |
| Lexer.LexerState.TokenLoop | src/parser/lexer.c:936-944 | the loop of gramina_lex computes LexFrom |
| Lexer.LexTurn | src/parser/lexer.c:936-944 | what one read_token did is one LexStep |
| Lexer.LexOf | src/parser/lexer.c:946-975 | gramina_lex's result in terms of where its loop stopped |
| Lexer.Lex | src/parser/lexer.c:920-976 | gramina_lex returns exactly LexSpec.Lex of its input |
| LexProps.ColumnAdvance | src/parser/lexer.c:67-85 | bytes other than CR and LF keep the line and advance the column by one each |
| LexProps.LineBreakRestartsColumn | src/parser/lexer.c:67-85 | after a CR or LF the next byte is in column 1 of the next line |
| LexProps.EscapeAcceptsExactly | src/parser/lexer.c:144-226 | the accepted escapes are exactly the enclosing quote, `\\ n t f v e 0`, `x` with two hex digits and `o` with three octal digits |
| LexProps.HexEscape | src/parser/lexer.c:184-201 | \x takes exactly two hex digits |
| LexProps.OctalEscape | src/parser/lexer.c:202-218 | \o takes exactly three octal digits, their value taken modulo 256 |
| LexProps.PlainLiteral | src/parser/lexer.c:228-260 | a literal without escapes holds exactly the bytes between its quotes |
| LexProps.EscapesInALiteral | src/parser/lexer.c:144-260 | `"a\tb\x41c"` decodes to a, TAB, b, A, c |
| LexProps.BlockCommentExtent | src/parser/lexer.c:262-283 | a block comment ends at the first `*/` whose slash is at index 3 or later, or runs to the end |
| LexProps.OpenerStarNeverCloses | src/parser/lexer.c:262-283 | `/*/` does not close: the opener's star is not reused |
| LexProps.LineCommentExtent | src/parser/lexer.c:285-302 | a line comment runs up to, not including, the first newline |
| LexProps.SpelledBack | src/parser/lexer.c:335-567 | each spelling in the table reads back as its own type |
| LexProps.SpelledTypeSpelled | src/parser/token.c:56-186 | every spelling the table accepts is the spelling of the type it gives |
| LexProps.SpellingInverse | src/parser/token.c:56-186 | a type has spelling w exactly when w spells that type |
| LexProps.MaximalMunch | src/parser/lexer.c:335-567 | read_operator reads the spelling of the type it returns, and no longer prefix of the input spells a token |
| LexProps.OperatorRoundTrip | src/parser/lexer.c:784-918 | every operator and punctuation spelling except the lone `\|`, followed by a space, lexes back to its own type using exactly its bytes |
| LexProps.LonePipeIsBad | src/parser/lexer.c:421-428 | a `\|` not followed by `\|` is BAD_TOK with the byte found in the message |
| LexProps.NoArrowToken | src/parser/lexer.c:335-567 | `->` is a minus; the `>` is left for the next token |
| LexProps.UnknownCharStops | src/parser/lexer.c:909-911 | a byte that starts no token stops the lexer with UNKNOWN_CHAR and no message |
| LexProps.CheckSuffixesMeaning | src/parser/lexer.c:692-737 | the suffix check passes exactly when no letter repeats and no U meets F or a decimal point |
| LexProps.SuffixRule | src/parser/lexer.c:591-782 | a suffix is legal iff each of L, U, F occurs at most once and U comes with neither a point nor F; the literal's type then follows from the letters |
| LexProps.DotNeedsDigit | src/parser/lexer.c:651-662 | in `1..5` the number is 1 and the dots are left for the next token |
| LexProps.ExponentMinus | src/parser/lexer.c:640-650 | `1e-5` reads `1e-` and stops at the minus, which stays in the input |
| LexProps.CharLiteralShape | src/parser/lexer.c:870-885 | a char literal holds at most one byte and its data stays 0 |
| LexProps.EmptyCharLiteral | src/parser/lexer.c:870-885 | `''` is an empty char literal |
| LexProps.MultibyteCharRejected | src/parser/lexer.c:879-882 | `'ab'` is BAD_TOK with "multibyte char literal" |
| LexProps.WordTokens | src/parser/lexer.c:813-822 | a word is the longest run of word bytes, a keyword iff classify_wordlike says so, else an identifier; a word reaching the end of input is dropped |
| LexProps.LexStepAppends | src/parser/lexer.c:936-944 | a turn appends at most one token, never EOF or NONE |
| LexProps.LexFromAppends | src/parser/lexer.c:936-944 | the loop only appends: earlier tokens stay a prefix |
| LexProps.LexFromMessage | src/parser/lexer.c:47-55 | once recorded a message is never replaced, and the first one comes only with BAD_TOK, which ends the loop |
| LexProps.LexShape | src/parser/lexer.c:920-976 | the token list ends with an EOF token and contains no other; the status is NONE, BAD_TOK or UNKNOWN_CHAR; a message only with BAD_TOK |
| LexProps.UnterminatedString | src/parser/lexer.c:947-949 | a string never closed is not an error: only the EOF token, status NONE |
| LexProps.UnterminatedComment | src/parser/lexer.c:262-283 | a comment never closed is not an error either |
| LexProps.TokenPositions | src/parser/lexer.c:951-968 | in `  ab\n`, `ab` is at line 1 column 3 and EOF one column past it |
| LexProps.LexStepToken | src/parser/lexer.c:807-917 | a token read is appended at the position where the lexer had looked when it started it |
| Token.ClassifyWordlike | src/parser/token.c:18-53 | a keyword's exact spelling gives that keyword; any other word is IDENTIFIER |
| Token.KeywordRoundTrip | src/parser/token.c:18-53 | every keyword is recognised from its spelling |
| Token.KeywordsAreExact | src/parser/token.c:18-53 | a word is a keyword exactly when it is a keyword's spelling |
| Token.KeywordsAreCaseSensitive | src/parser/token.c:18-53 | keyword matching is case-sensitive |
| Token.TokenContents | src/parser/token.c:56-186 | integers render their value in decimal, operators their spelling, EOF `<eof>`, words and strings their text |
| Token.IntegerContentsRoundTrip | src/parser/token.c:56-186 | an integer literal's rendering reads back as its value |
| Token.TokenFree | src/parser/token.c:8-16 | token_free leaves an ILL_FORMED token at (0,0,0) with no flags and no contents; the data is untouched |
| Token.TokenTypeToStr | src/parser/token.c:189-371 | the enum name of each type; sizeof and alignof have no case |
| Attributes.GetAttribKind | src/parser/attributes.c:21-30 | "extern" and "method" name their kinds, every other name NONE |
| Attributes.AttribNameRoundTrip | src/parser/attributes.c:21-30 | names round-trip through kinds; matching is case-sensitive |
| Attributes.SymattrFree | src/parser/attributes.c:9-19 | the kind becomes NONE; EXTERN's string is released, METHOD's is kept |
| Attributes.SymattrFreeIdempotent | src/parser/attributes.c:9-19 | freeing twice is freeing once |
| Ast.NodeTypeName | src/parser/ast.c:287-479 | each node type's enum name without its prefix; none equals UNKNOWN |
| Ast.NodeTypeToStrUnknown | src/parser/ast.c:287-479 | only values outside the enum print as UNKNOWN |
| Ast.FreedValue | src/parser/ast.c:63-99 | what ast_node_free releases in a node's value, by kind |
| Ast.AstNode.Detached | src/parser/ast.c:19-40 | a fresh node with no parent and no children |
| Ast.MkAstNode | src/parser/ast.c:19-40 | a fresh zeroed node, attached to the parent's left slot when free, else to its right |
| Ast.MkAstNodeLr | src/parser/ast.c:42-61 | a fresh node with l and r as children, each re-parented to it |
| Ast.ChildL | src/parser/ast.c:101-107 | the left child is replaced; the old one is neither freed nor unlinked |
| Ast.ChildR | src/parser/ast.c:109-115 | the right child is replaced; the old one is neither freed nor unlinked |
| Ast.GetSymattr | src/parser/ast.c:117-135 | the index of the first attribute of the wanted kind on the node kinds that carry attributes |
| Ast.AstNodeFree | src/parser/ast.c:63-99 | the node's value is released by kind, then both subtrees, then the node is unlinked |
| ParseCore.Consume | src/parser/parser.c:21 | CONSUME moves the cursor past a token that is not EOF and changes nothing else |
| ParseCore.ConsumeAny | src/parser/parser.c:21 | an unguarded CONSUME on EOF walks past the token list: the model records a crash |
| ParseCore.SetErr | src/parser/parser.c:22 | SET_ERR raises the flag and replaces the message |
| ParseCore.SetErrIfNone | src/parser/parser.c:22-23 | an earlier message wins |
| ParseCore.ClearErr | src/parser/parser.c:24 | CLEAR_ERR drops the flag |
| ParseCore.Mk | src/parser/ast.c:42-61 | a node with no flags and a zeroed value over the given children |
| ParseCore.Link | src/parser/parser.c:336-366 | statements chained through their right children; the empty list is NULL |
| ParseCore.Unlink | src/parser/parser.c:336-366 | the statements of a chain, each detached from its successor |
| ParseCore.Identifier | src/parser/parser.c:1006-1021 | an IDENTIFIER leaf with the token's text and position exactly when the token is an identifier, else "expected identifier" |
| ParseCore.NumberNode | src/parser/parser.c:936-979 | a numeric token's node type is one of the VAL_ number kinds |
| ParseCore.Value | src/parser/parser.c:1179-1200 | a literal or identifier token becomes a leaf at its position; any other token is an error |
| ParseCore.Typename | src/parser/parser.c:1083-1177 | typename: the cursor only moves forward; NULL only with the error set |
| ParseCore.TypeSuffixes | src/parser/parser.c:1116-1170 | the suffix loop of typename never moves back; NULL only with the error set, otherwise the error flag as before |
| ParseCore.ArrayType | src/parser/parser.c:1023-1081 | handle_array_type never moves back; NULL only with the error set, otherwise the error flag as before |
| ParseExpr.TierOf | src/parser/parser.c:1554-1878 | the tier of each binary operator token, loosest first; -1 for others |
| ParseExpr.TierOp | src/parser/parser.c:1554-1878 | a token is an operator of tier k exactly when TierOf gives k |
| ParseExpr.Expression | src/parser/parser.c:589-591 | an expression moves the cursor when it yields a node, and sets the error when it does not |
| ParseExpr.Tier | src/parser/parser.c:26-44 | CHAINABLE_EXPRESSION_RULE: a node moves the cursor; NULL only with the error set |
| ParseExpr.TierPr | src/parser/parser.c:46-63 | CHAIN_SELF: no operator of tier k gives nothing; otherwise its node type and the rest of the chain |
| ParseExpr.Unary | src/parser/parser.c:1513-1552 | unary_exp: a node moves the cursor; NULL only with the error set |
| ParseExpr.Evaluative | src/parser/parser.c:1495-1511 | evaluative_exp: a node moves the cursor; NULL only with the error set |
| ParseExpr.EvalPr | src/parser/parser.c:1463-1493 | a postfix operator gives its node type, otherwise nothing |
| ParseExpr.ApplyAccess | src/parser/parser.c:1437-1461 | accessors applied innermost first always give a node |
| ParseExpr.Access | src/parser/parser.c:1437-1461 | access_exp: a node moves the cursor; NULL only with the error set |
| ParseExpr.AccessPr | src/parser/parser.c:1340-1435 | access_exp_pr: no accessor token gives an empty run |
| ParseExpr.AccessRight | src/parser/parser.c:1340-1435 | the operand of an accessor: failure sets the error |
| ParseExpr.Factor | src/parser/parser.c:1247-1283 | factor: a node moves the cursor; NULL only with the error set |
| ParseExpr.Cast | src/parser/parser.c:1202-1245 | cast: a node moves the cursor; NULL only with the error set |
| ParseExpr.ExpressionList | src/parser/parser.c:1316-1338 | expression_list: a node moves the cursor; NULL only with the error set |
| ParseExpr.ExpressionListPr | src/parser/parser.c:1285-1314 | without a comma the rest of the list is empty |
| ParseStmt.Prepend | src/parser/parser.c:350-357 | a statement put in front of the rest keeps the chain linkable |
| ParseStmt.ExprStmt | src/parser/parser.c:593-622 | a lone `;` is consumed and yields NULL; otherwise an EXPRESSION_STATEMENT, error-free, or an error |
| ParseStmt.DeclStmt | src/parser/parser.c:626-675 | declaration_statement gives a DECLARATION_STATEMENT or sets the error |
| ParseStmt.DeclEnd | src/parser/parser.c:666-672 | the closing `;` of a declaration |
| ParseProps.DeclStmtShape | src/parser/parser.c:626-675 | a type name, an identifier and `;` give a DECLARATION_STATEMENT at the type's position over the identifier typed by it |
| ParseProps.DeclAfterTypename | src/parser/parser.c:636-672 | after the type name, an identifier and `;` close the declaration with the typed identifier |
| ParseStmt.ReturnStmt | src/parser/parser.c:677-718 | return_statement gives a RETURN_STATEMENT or sets the error |
| ParseStmt.Statement | src/parser/parser.c:894-918 | statement moves forward, gives an unlinked node, or sets the error or crashes |
| ParseStmt.StatementBlock | src/parser/parser.c:720-742 | statement_block: a node only without an error |
| ParseStmt.FunctionBody | src/parser/parser.c:336-366 | function_body stops at `}` unless an error is set |
| ParseStmt.BodyLoop | src/parser/parser.c:340-358 | the loop's statements stay linkable and it ends at `}` unless an error is set |
| ParseStmt.IfStmt | src/parser/parser.c:744-794 | if_statement gives a CONTROL_FLOW node or sets the error |
| ParseStmt.ElsePart | src/parser/parser.c:764-779 | without `else` nothing; with it an ELSE_CLAUSE |
| ParseStmt.ForStmt | src/parser/parser.c:796-861 | for_statement gives a CONTROL_FLOW node, sets the error or crashes |
| ParseStmt.ForTail | src/parser/parser.c:815-861 | the rest of for_statement after its condition |
| ParseStmt.WhileStmt | src/parser/parser.c:863-892 | while_statement gives a CONTROL_FLOW node or sets the error |
| ParseDecl.Param | src/parser/parser.c:183-194 | a parameter is an identifier whose left child is its type |
| ParseDecl.Params | src/parser/parser.c:178-206 | param_list: NULL before `)` |
| ParseDecl.ParamsPr | src/parser/parser.c:150-176 | param_list_pr: PARAM_LIST nodes, nothing without a comma |
| ParseDecl.ReturnType | src/parser/parser.c:250-270 | without `->` there is no return type |
| ParseDecl.FunctionDefinition | src/parser/parser.c:209-333 | function_def: nothing without `fn`; a node only without error, a declaration or a definition |
| ParseDecl.FunctionEnd | src/parser/parser.c:298-333 | the body is put in the definition's right slot when `}` closes it |
| ParseDecl.Field | src/parser/parser.c:368-397 | struct_field: a STRUCT_FIELD, or the error set |
| ParseDecl.FieldLoop | src/parser/parser.c:427-437 | the field loop ends at `}` or gives up with the error set |
| ParseDecl.StructDefinition | src/parser/parser.c:399-442 | struct_def: a STRUCT_DEF, or the error set |
| ParseDecl.AttribArg | src/parser/parser.c:463-494 | an attribute's optional `("text")` |
| ParseDecl.Attrib | src/parser/parser.c:447-521 | one attribute, whose kind is get_attrib_kind of its name and never NONE |
| ParseDecl.AttribLoop | src/parser/parser.c:445-522 | the attributes read while the token is `#`, all of known kinds |
| ParseDecl.WithAttr | src/parser/parser.c:521 | an attribute put in front of the rest of the loop's |
| ParseDecl.WithAttributes | src/parser/parser.c:540-569 | a definition carrying the attributes read before it |
| ParseDecl.GlobalStmt | src/parser/parser.c:444-586 | global_statement gives a GLOBAL_STATEMENT or STRUCT_DEF node, or the error set |
| ParseDecl.GlobalLoop | src/parser/parser.c:94-110 | the loop ends at EOF unless an error is set, and its "infinite loop!" guard never fires |
| ParseDecl.Parse | src/parser/parser.c:84-131 | a tree is returned only with a root node |
| ParseDecl.Outcome | src/parser/parser.c:112-131 | a tree is the first statement linked with the rest; failure exactly when an error is set and nothing was linked after NULL; the message is the error followed by `, found '<text of the token at the cursor>'`, at the cursor's position |
| ParserLoops.FieldsStep | src/parser/parser.c:428-437 | a field read with no error set is kept and the loop goes on |
| ParserLoops.FieldsStop | src/parser/parser.c:429-433 | the error flag set after a field, even by an earlier error, ends the loop |
| ParserLoops.Chained | src/parser/parser.c:435-436 | a node with no successor can be linked after a chain |
| ParserLoops.FieldsEnd | src/parser/parser.c:428-439 | at `}` the loop ends with the fields read |
| ParserLoops.AttrsStep | src/parser/parser.c:446-522 | an attribute read and recognised is kept |
| ParserLoops.AttrsStop | src/parser/parser.c:449-507 | a failed attribute ends global_statement |
| ParserLoops.AttrsEnd | src/parser/parser.c:446 | without `#` the attribute loop ends |
| ParserLoops.GlobalsStep | src/parser/parser.c:94-110 | a statement that moved the cursor is linked and the loop goes on |
| ParserLoops.GlobalsStop | src/parser/parser.c:95-98 | a statement that yields NULL ends the loop |
| ParserLoops.GlobalsEnd | src/parser/parser.c:94 | at EOF the loop ends |
| ParserLoops.BodyStep | src/parser/parser.c:340-358 | one statement taken by function_body's loop |
| ParserLoops.BodyStop | src/parser/parser.c:341-348 | NULL ends the loop with "expected statement" unless an error is set |
| ParserLoops.BodyEnd | src/parser/parser.c:340 | at `}` the loop ends |
| ParserLoops.SuffixConst | src/parser/parser.c:1116-1170 | a `const` is pending for the next wrapper |
| ParserLoops.SuffixPointer | src/parser/parser.c:1120-1135 | `&` wraps one pointer level and `&&` two, at the operator |
| ParserLoops.SuffixBracket | src/parser/parser.c:1136-1160 | `[]`, `[N]` or an error after `[` |
| ParserLoops.SuffixEnd | src/parser/parser.c:1160-1170 | any other token ends the suffix loop |
| Parser.ParserState.constructor | src/parser/parser.c:85-89 | the state starts at index 0 with no error |
| Parser.ParserState.Copy | src/parser/parser.c:908 | `ParserState Sp = *S` copies every field |
| Parser.ParserState.Restore | src/parser/parser.c:908-912 | `*S = Sp` takes over a copy's fields |
| Parser.ParserState.Consume | src/parser/parser.c:21 | the cursor moves past the current token in place |
| Parser.ParserState.SetErr | src/parser/parser.c:22 | the flag and message are set in place |
| Parser.ParserState.SetErrIfNone | src/parser/parser.c:22-23 | an earlier message is kept |
| Parser.ParserState.ClearErr | src/parser/parser.c:24 | the flag is dropped in place |
| Parser.ParserState.Identifier | src/parser/parser.c:1006-1021 | leaves the state and returns the node ParseCore.Identifier gives |
| Parser.ParserState.HandleArrayType | src/parser/parser.c:1023-1081 | leaves what ParseCore.ArrayType gives |
| Parser.ParserState.Typename | src/parser/parser.c:1083-1177 | leaves what ParseCore.Typename gives |
| Parser.ParserState.Suffixes | src/parser/parser.c:1116-1170 | the suffix loop computes ParseCore.TypeSuffixes |
| Parser.ParserState.Statement | src/parser/parser.c:894-918 | leaves what ParseStmt.Statement gives, running the expression attempt on a copy |
| Parser.ParserState.ExpressionOrDeclaration | src/parser/parser.c:908-917 | the expression statement read on a copy is kept when it gives a node; otherwise the declaration is read from the state as it was |
| Parser.ParserState.FunctionBody | src/parser/parser.c:336-366 | the body loop computes ParseStmt.FunctionBody, linking statements in place |
| Parser.ParserState.Field | src/parser/parser.c:368-397 | leaves what ParseDecl.Field gives |
| Parser.ParserState.ParseStruct | src/parser/parser.c:399-442 | leaves what ParseDecl.StructDefinition gives |
| Parser.ParserState.Fields | src/parser/parser.c:427-437 | the field loop computes ParseDecl.FieldLoop |
| Parser.ParserState.Attribute | src/parser/parser.c:447-521 | one attribute, as ParseDecl.Attrib gives it |
| Parser.ParserState.ParseFunction | src/parser/parser.c:209-333 | leaves what ParseDecl.FunctionDefinition gives |
| Parser.ParserState.ParseGlobal | src/parser/parser.c:444-586 | leaves what ParseDecl.GlobalStmt gives, running the attribute loop in place |
| Parser.ParserState.GlobalStatements | src/parser/parser.c:94-110 | the loop of gramina_parse computes ParseDecl.GlobalLoop |
| Parser.ParseTokens | src/parser/parser.c:84-131 | gramina_parse returns exactly ParseDecl.Parse of its tokens |
| Parser.ParserState.Finish | src/parser/parser.c:112-131 | the end of gramina_parse gives exactly ParseDecl.Outcome of the state and the statements read |
| ParseProps.UnlinkLink | src/parser/parser.c:336-366 | unlinking a linked chain gives back its statements |
| ParseProps.LinkUnlink | src/parser/parser.c:336-366 | every right-linked chain is the link of its statements |
| ParseProps.HigherIsUnary | src/parser/parser.c:26-44 | an operand followed by no operator of tier k or looser is returned by every tier unchanged |
| ParseProps.TierIsUnary | src/parser/parser.c:26-44 | the same for tier k itself |
| ParseProps.ExpressionIsUnary | src/parser/parser.c:589-591 | with no binary operator after it the expression is its unary operand |
| ParseProps.TierSingle | src/parser/parser.c:26-63 | `a op b` within tier k is one node of op's type at op's position |
| ParseProps.TierRightNested | src/parser/parser.c:26-63 | `a op1 b op2 c` within tier k is op1(a, op2(b, c)), both nodes at op1's position |
| ParseProps.ExpressionOneOperator | src/parser/parser.c:1554-1882 | `a op b` with op of any tier is the one node op(a, b) at op's position |
| ParseProps.LooserTiersPass | src/parser/parser.c:26-63 | the tiers looser than the one that built a node pass it through when no operator of theirs follows |
| ParseProps.OperatorTier | src/parser/parser.c:26-63 | `a op b` with nothing of op's tier after b: op's tier builds op(a, b) at op's position |
| ParseProps.TighterOperatorLater | src/parser/parser.c:1554-1882 | `a op1 b op2 c` with op2 binding tighter is op1(a, op2(b, c)), each node at its own operator |
| ParseProps.TighterOperatorFirst | src/parser/parser.c:1554-1882 | `a op1 b op2 c` with op1 binding tighter is op2(op1(a, b), c), each node at its own operator |
| ParseProps.AboveOperatorTier | src/parser/parser.c:26-44 | looser tiers pass the node built at tier k through unchanged |
| ParseProps.PrefixNested | src/parser/parser.c:1513-1552 | the first prefix operator written is outermost, each at its own token |
| ParseProps.EvalPrOne | src/parser/parser.c:1463-1511 | one postfix operator over an operand |
| ParseProps.EvalPrTwo | src/parser/parser.c:1463-1511 | two postfix operators: the first gives the outer node's type |
| ParseProps.AccessNestsLeft | src/parser/parser.c:1340-1461 | each accessor wraps the chain built so far: access chains nest to the left |
| ParseProps.CallWithoutArguments | src/parser/parser.c:1340-1435 | `()` is a call whose argument list is NULL |
| ParseProps.FactorForgetsEarlierError | src/parser/parser.c:1247-1283 | a parenthesised factor is parsed as from a clean state: an error raised before it is gone |
| ParseProps.StatementFallsBack | src/parser/parser.c:894-918 | a non-keyword statement is the expression statement when that yields a node, else the declaration from the original state |
| ParseProps.AndIsAnExpression | src/parser/parser.c:894-918 | `int && x ;` is a logical-and expression statement |
| ParseProps.SuffixSinglePointer | src/parser/parser.c:1116-1135 | `&` followed by no suffix is one pointer level at the `&` |
| ParseProps.TypenamePointer | src/parser/parser.c:1083-1177 | a type name followed by `&` is one pointer level at the `&` |
| ParseProps.PointerNotExpression | src/parser/parser.c:593-622 | `int & x ;` is no expression statement |
| ParseProps.AmpersandIsADeclaration | src/parser/parser.c:894-918 | `int & x ;` declares x as a pointer to int |
| ParseProps.EmptyStatementRejected | src/parser/parser.c:894-918 | a lone `;` as a statement is an error |
| ParseProps.EmptyBlock | src/parser/parser.c:720-742 | `{ }` is an empty block with both braces consumed |
| ParseProps.BlockShape | src/parser/parser.c:720-742 | a block is its body's node, the `}` consumed |
| ParseProps.EmptyBody | src/parser/parser.c:336-366 | a body of only `}` is NULL with nothing consumed |
| ParseProps.ForWithoutClausesCrashes | src/parser/parser.c:805-858 | `for ; ; { }` dereferences NULL |
| ParseProps.SuffixDoublePointer | src/parser/parser.c:1120-1135 | `&&` adds two pointer levels; a pending const flags the inner one only |
| ParseProps.SuffixSlice | src/parser/parser.c:1136-1160 | `[]` makes a slice of the type so far |
| ParseProps.SuffixArray | src/parser/parser.c:1023-1081 | `[N]` is an array of length N when N is positive, and an error at the literal otherwise |
| ParseProps.SuffixConstPointer | src/parser/parser.c:1116-1170 | `T const &` is a const pointer to a plain T |
| ParseProps.TypenameConstBase | src/parser/parser.c:1083-1115 | a leading const flags the named base type |
| ParseProps.ReflectTakesNoSuffix | src/parser/parser.c:1083-1115 | `$` is a complete type name |
| ParseProps.FunctionDeclarationShape | src/parser/parser.c:209-333 | `fn name ( ) ;` is a FUNCTION_DECLARATION at the name |
| ParseProps.FunctionDefinitionShape | src/parser/parser.c:209-333 | `fn name ( ) { }` is a FUNCTION_DEF with an empty body |
| ParseProps.NotADefinition | src/parser/parser.c:444-586 | a global statement starting with none of `#`, `fn`, `struct` is an error |
| ParseProps.EmptyProgramFails | src/parser/parser.c:84-131 | a program of EOF alone fails at the EOF token |
| ParseProps.EmptyStruct | src/parser/parser.c:399-442 | `struct A { }` has no fields, even with an error pending |
| ParseProps.EmptyStructDespiteError | src/parser/parser.c:444-586 | as a global statement nothing notices the pending error |
| ParseProps.GlobalStruct | src/parser/parser.c:548-570 | without attributes, a struct definition that succeeds is wrapped in a second STRUCT_DEF at its position |
| ParseProps.LinkAfterFailedFirstCrashes | src/parser/parser.c:84-131 | `fn f struct A { }`: the struct is linked after the missing first node, a NULL dereference |
| Str.String.WithCapacity | src/common/str.c:37-42 | an empty string with the given capacity |
| Str.String.Reserve | src/common/str.c:207-222 | the capacity becomes minCap when smaller; contents unchanged |
| Str.String.Append | src/common/str.c:232-239 | one byte at the end |
| Str.String.Pop | src/common/str.c:224-230 | drops the last byte; an empty string is left alone |
| Str.String.CatSv | src/common/str.c:246-256 | the view's bytes at the end |
| Str.String.Free | src/common/str.c:179-185 | empty, with no allocation |
| Str.AppendThenPop | src/common/str.c:224-239 | appending then popping restores the contents |
| Str.SvSlice | src/common/str.c:135-144 | the window [start, end) of a view |
| Str.SliceJoin | src/common/str.c:135-144 | the three slices at two cut points join back to the view |
| Str.SvCmp | src/common/str.c:271-286 | sv_cmp's sign orders views lexicographically, a shorter prefix first |
| Str.CompareZeroIffEqual | src/common/str.c:271-286 | zero exactly on equal views |
| Str.CompareAntisymmetric | src/common/str.c:271-286 | swapping the operands negates the sign |
| Str.PrefixComparesLess | src/common/str.c:271-286 | a proper prefix compares below |
| Str.AppendCopies | src/common/str.c:301-315 | the loops appending n copies of a byte |
| Str.StrExpandTabs | src/common/str.c:301-315 | every tab becomes tabSize spaces, everything else copied |
| Str.ExpandTabsAppend | src/common/str.c:301-315 | expansion distributes over concatenation |
| Str.ExpandTabsRemovesTabs | src/common/str.c:301-315 | no tab survives |
| Str.ExpandTabsIdentity | src/common/str.c:301-315 | text without tabs is unchanged |
| Str.ExpandTabsLength | src/common/str.c:301-315 | each tab adds tabSize - 1 bytes |
| Str.NumDigitsBounds | src/common/str.c:577-586 | NumDigits(x) is the k with 10^(k-1) <= x < 10^k, 1 for 0 |
| Str.CountDigits | src/common/str.c:577-586 | count_digits returns NumDigits |
| Str.DecimalNoLeadingZero | src/common/str.c:613-629 | no leading zero except for 0 itself |
| Str.U64ToStr | src/common/str.c:613-629 | u64_to_str writes the decimal rendering |
| Str.SvToU64 | src/common/str.c:668-680 | sv_to_u64 reads the leading digits modulo 2^64 |
| Str.WrapTwice | src/common/str.c:668-680 | wrapping after each step is wrapping once |
| Str.DecimalRoundTrip | src/common/str.c:613-680 | reading back a rendered number gives the number |
| Str.NegateAsI64 | src/common/str.c:654-666 | negating twice through 64-bit patterns gives the value back |
| Str.SvToI64 | src/common/str.c:654-666 | a leading `-` negates the unsigned reading of the rest, with wrap-around |
| Str.I64ToStr | src/common/str.c:596-611 | a `-` before negative numbers, then the decimal digits |
| Str.SignedRoundTrip | src/common/str.c:596-666 | rendering a signed 64-bit number and reading it back gives it |
| Str.HexDigit | src/common/str.c:317-323 | 0-9 then upper-case A-F |
| Str.UintToHex | src/common/str.c:325-332 | appends 2·nBytes hex digits |
| Str.HexBytesSpellBytes | src/common/str.c:325-332 | digits 2j and 2j+1 spell byte nBytes-1-j, most significant first |
| Str.CStr | src/common/str.c:405-410 | a C string argument ends at its first NUL |
| Str.RenderSpec | src/common/str.c:380-494 | each known spec renders its argument; unknown specs and missing or mistyped arguments are told apart |
| Str.Step | src/common/str.c:341-377 | one byte of format's scan keeps the scanning state well formed |
| Str.CloseSpec | src/common/str.c:362-500 | a `}` closes the open spec and moves to the next argument |
| Str.Formatter | src/common/str.c:334-508 | format's loop computes Format |
| Str.ScanByte | src/common/str.c:341-500 | one iteration of format's loop is one Step |
| Str.CloseSpecAt | src/common/str.c:362-500 | the closing brace renders or stops as CloseSpec says |
| Str.PlainTextIsCopied | src/common/str.c:334-508 | text without braces and backslashes is copied unchanged |
| Str.Hex32Spec | src/common/str.c:439-449 | `{x32}` renders 0x and eight upper-case hex digits |
| Str.UnknownSpecEmpties | src/common/str.c:492-494 | an unknown spec discards all output |
| Str.InsideSpec | src/common/str.c:341-377 | other bytes inside an open spec change nothing |
| Str.EscapedBrace | src/common/str.c:341-360 | a backslash before `{` makes it a literal brace |
| Str.NestedOpenBraceAborts | src/common/str.c:135-144 | `{a:{b}` closes a spec whose window ends before it starts: sv_slice aborts in a debug build |
| Arrays.GrowthIsGeometric | include/common/array.h:104-119 | growing multiplies the capacity by at least 3/2 |
| Arrays.Array.Empty | include/common/array.h:121-127 | no buffer, no items |
| Arrays.Array.WithCapacity | include/common/array.h:129-141 | an empty array whose buffer holds cap items |
| Arrays.Array.Prefilled | include/common/array.h:143-155 | n copies of v |
| Arrays.Array.FromSeq | include/common/array.h:157-167 | a copy of a C array of n items |
| Arrays.Array.Realloc | include/common/array.h:104-119 | a fresh buffer of the new capacity with the same items |
| Arrays.Array.GrowAtLeast | include/common/array.h:104-119 | the capacity after growing holds n items; items unchanged |
| Arrays.Array.Reserve | include/common/array.h:226-237 | the capacity becomes minCap exactly when smaller |
| Arrays.Array.Append | include/common/array.h:239-242 | v becomes the last item; earlier items unchanged |
| Arrays.Array.Pop | include/common/array.h:244-248 | drops the last item; a no-op when empty |
| Arrays.Array.Remove | include/common/array.h:250-260 | deletes the item at index keeping the order; a no-op out of range |
| Arrays.Array.Slice | include/common/array.h:178-186 | the window [start, end) of the items |
| Arrays.Array.Last | include/common/array.h:266-270 | the last item, or nothing when empty |
| Arrays.Array.DupAsWritten | include/common/array.h:169-176 | the copy gets every item in its buffer but keeps length 0 |
| Arrays.Array.Dup | include/common/array.h:169-176 | the corrected copy holds the same items |
| Arrays.Array.Free | include/common/array.h:216-224 | no buffer, no items |
| Arrays.AppendThenPop | include/common/array.h:239-248 | appending then popping gives back the same items |
| Arrays.RemoveKeepsOthers | include/common/array.h:250-260 | every other item stays, in order, one shorter |
| Hashmaps.HashOfConcat | src/common/hashmap.c:10-19 | the FNV hash is a left fold over the key |
| Hashmaps.HashStr | src/common/hashmap.c:10-19 | hash_str's loop computes that fold, in 64-bit arithmetic |
| Hashmaps.BucketOf | src/common/hashmap.c:21-23 | the bucket index is below the bucket count |
| Hashmaps.FindIn | src/common/hashmap.c:100-111 | the index of the first item with the key |
| Hashmaps.Inserted | src/common/hashmap.c:75-98 | set as intended: an existing entry takes the new value, else one is appended |
| Hashmaps.InsertedAsWritten | src/common/hashmap.c:75-98 | set as written, which frees the overwritten entry's key: the bucket count is kept |
| Hashmaps.Deleted | src/common/hashmap.c:113-129 | the first entry with the key goes, the rest keep their order |
| Hashmaps.GetAfterSet | src/common/hashmap.c:75-111 | after a set the key finds the new value |
| Hashmaps.GetAfterSetOther | src/common/hashmap.c:75-111 | a set changes no other key |
| Hashmaps.SetKeepsKeysUnique | src/common/hashmap.c:75-98 | buckets stay free of duplicate keys |
| Hashmaps.GetAfterRemove | src/common/hashmap.c:100-129 | a removed key is gone and every other key untouched |
| Hashmaps.OverwriteLosesKey | src/common/hashmap.c:75-98 | as written, setting a key twice loses it |
| Hashmaps.SecondSetMisses | src/common/hashmap.c:75-98 | as written, a new key set twice is no longer found |
| Hashmaps.Find | src/common/hashmap.c:100-111 | the lookup finds the first matching entry's value |
| Hashmaps.Hashmap.constructor | src/common/hashmap.c:25-53 | n empty buckets; none when n is 0 |
| Hashmaps.Hashmap.Scan | src/common/hashmap.c:85-95 | the bucket scan finds FindIn's index |
| Hashmaps.Hashmap.Get | src/common/hashmap.c:100-111 | hashmap_get returns what the key maps to |
| Hashmaps.Hashmap.Set | src/common/hashmap.c:75-98 | the buckets become Inserted's |
| Hashmaps.Hashmap.SetAsWritten | src/common/hashmap.c:75-98 | the buckets become InsertedAsWritten's |
| Hashmaps.Hashmap.Remove | src/common/hashmap.c:113-129 | the buckets become Deleted's; the value goes to object_freer |
| Hashmaps.Hashmap.DupAsWritten | src/common/hashmap.c:55-73 | the copy has the right number of buckets, all empty |
| Hashmaps.Hashmap.Dup | src/common/hashmap.c:55-73 | the corrected copy has the same buckets |
| Hashmaps.Hashmap.Free | src/common/hashmap.c:131-148 | every stored value goes to object_freer |
| Hashmaps.DupAsWrittenFindsNothing | src/common/hashmap.c:55-73 | the as-written copy finds no key |
| Hashmaps.FreshMapIsEmpty | src/common/hashmap.c:25-53 | a fresh map finds nothing |
| Args.FindNamedIn | src/common/arg.c:20-28 | the first LONG entry with the name |
| Args.FindFlagIn | src/common/arg.c:30-38 | the first FLAG entry with the character |
| Args.PopulateArg | src/common/arg.c:40-78 | the next argument is the parameter unless none is left, none is taken, or it starts with a dash |
| Args.Flags | src/common/arg.c:110-140 | one `-abc` argument: the loop goes on at the same argument or past one parameter that exists; the table keeps its size |
| Args.Step | src/common/arg.c:80-146 | one pass of args_parse's loop: it goes on at the same argument or past one parameter that exists; the table keeps its size |
| Args.Arguments.FindNamed | src/common/arg.c:20-28 | the scan returns FindNamedIn |
| Args.Arguments.FindFlag | src/common/arg.c:30-38 | the scan returns FindFlagIn |
| Args.Arguments.PopulateArgument | src/common/arg.c:40-78 | updates the entry and error as PopulateArg says |
| Args.Arguments.ParseFlags | src/common/arg.c:110-140 | the flag loop computes Flags |
| Args.Arguments.ParseOne | src/common/arg.c:80-146 | one pass computes Step |
| Args.Arguments.ParseArgs | src/common/arg.c:80-146 | args_parse ends in the state Args.Parse gives and reports whether it failed |
| Args.Arguments.Free | src/common/arg.c:148-153 | the arrays and the error are released |
| Args.PlainArgumentsArePositional | src/common/arg.c:80-146 | arguments without a dash are positional, in order, never an error |
| Args.DoubleDashEndsOptions | src/common/arg.c:10-18 | after `--` everything is a suffix argument, verbatim |
| Args.FailureLeavesMessage | src/common/arg.c:80-146 | an error always leaves a message, and the table keeps its entries |
| Args.MissingParameterIsReported | src/common/arg.c:40-78 | a last long option missing its parameter is reported by name |
| Errors.FirstOnLine | src/common/error.c:8-29 | the first index on line L |
| Errors.EndBefore | src/common/error.c:8-29 | the newline that ends line L |
| Errors.Locate | src/common/error.c:8-29 | the first loop of highlight_line finds the line starts and end |
| Errors.LineAtMonotone | src/common/error.c:8-29 | line numbers never decrease along the source |
| Errors.LineStartFollowsNewline | src/common/error.c:8-29 | a line's first index is 0 or follows a newline |
| Errors.Gutter | src/common/error.c:39-43 | the gutter field is padding wide, or wider when the line number has more digits |
| Errors.RenderChar | src/common/error.c:47-65 | a newline starts a new line at column 1; other bytes advance the column |
| Errors.RenderExtends | src/common/error.c:47-65 | rendering only appends |
| Errors.HighlightLine | src/common/error.c:7-82 | the corrected highlight_line, with its loops |
| Errors.RenderLoop | src/common/error.c:45-65 | the rendering loop computes RenderRegion |
| Errors.AppendUnderline | src/common/error.c:67-81 | the underline row |
| Errors.CorrectionIsLocal | src/common/error.c:7-82 | the correction changes nothing unless the range is one line from column 1 |
| Errors.MissingLinesFail | src/common/error.c:31-37 | missing lines give the fixed failure text |
| Errors.SingleLineFromColumnOne | src/common/error.c:45-65 | as written, a one-line range from column 1 switches highlighting off but never on |
| Errors.MkOptE | src/common/error.c:97-103 | an error code with an empty message |
| Errors.MkOptEMsg | src/common/error.c:105-127 | an error code with its message |
| Errors.OptFree | src/common/error.c:153-160 | a heap value is released and the message always |
| Errors.OptFreeIdempotent | src/common/error.c:153-160 | freeing twice is freeing once |
| Errors.OptValueStack.GetOptValuePtr | src/common/error.c:129-151 | with prev the last pointer is popped, else a new one pushed |
| Errors.OptValueStack.MkOptV | src/common/error.c:129-151 | a value is stored and the stack ends as it began |
| Types.BuiltinNameRoundTrip | src/compiler/type.c:23-56 | reading back a built-in type's rendering gives the type |
| Types.BuiltinTypeRendersBack | src/compiler/type.c:23-56 | a name builtin_type accepts is its type's rendering; the others are INVALID |
| Types.PointerAndSliceRendering | src/compiler/type.c:241-290 | pointer and slice renderings add `&` and `[]` |
| Types.SignednessTable | src/compiler/type.c:319-334 | the unsigned and integral primitives |
| Types.PrimCanConvertIsPartialOrder | src/compiler/type.c:374-382 | implicit primitive conversion is a partial order |
| Types.IntToFloatRule | src/compiler/type.c:374-382 | signed integers widen to floats, unsigned ones do not, floats never narrow |
| Types.OnlyBoolConvertsToBool | src/compiler/type.c:374-382 | only bool converts to bool |
| Types.TypeIsSameReflexive | src/compiler/type.c:336-372 | type_is_same is reflexive on the comparable types |
| Types.NeverSameKinds | src/compiler/type.c:336-372 | invalid, array, function and generic types are never the same |
| Types.SameImpliesSameKind | src/compiler/type.c:336-372 | sameness implies equal kinds |
| Types.StructSameIsOneDirectional | src/compiler/type.c:355-370 | struct comparison looks only at the left struct's fields |
| Types.TypeCanConvertRule | src/compiler/type.c:384-394 | type_can_convert is sameness or primitive conversion |
| Types.PrimitiveCoercion | src/compiler/type.c:440-460 | both primitive with equal signedness, the greater one; else invalid |
| Types.CoercionIsLeastUpperBound | src/compiler/type.c:440-460 | the coerced type is the least common target |
| Types.CoercionSymmetric | src/compiler/type.c:440-460 | swapping the operands keeps the coerced type |
| TypeNodes.FromNode | src/compiler/type.c:71-239 | NULL is void; the error is never cleared and only the misplaced `$` raises one |
| TypeNodes.ReflectedType | src/compiler/type.c:80-107 | `$` is the innermost reflection's type when the depth is deeper than its own, else the out-of-context error |
| TypeNodes.NamedType | src/compiler/type.c:108-124 | built-in names first, then what the name resolves to, else INVALID |
| TypeNodes.ParamTypes | src/compiler/type.c:133-145 | one parameter type per node of the chain |
| TypeNodes.FieldTypes | src/compiler/type.c:178-211 | the field table, filled through the corrected hashmap_set (Put), never holds a name twice |
| TypeNodes.Put | src/compiler/type.c:196-202 | the corrected hashmap_set: a repeated field name keeps its name and takes the new type in place |
| TypeNodes.PutLookup | src/compiler/type.c:196-202 | after Put the name finds the new type and others what they found before |
| TypeNodes.PutAsWritten | src/common/hashmap.c:75-98 | hashmap_set as written on the field table: a new name is appended, a repeated one keeps the count |
| TypeNodes.MatchedNameLost | src/common/hashmap.c:75-89 | as written, putting a name the table holds leaves nothing under that name |
| TypeNodes.RepeatedFieldLosesName | src/compiler/type.c:196-202 | `int a; byte a; long a;` ends as an unnamed byte field and `a: long`; corrected, as `a: long` only |
| TypeNodes.NoReflectKeepsError | src/compiler/type.c:71-239 | a type written without `$` leaves the error as it was |
| Values.PutsErr | src/compiler/errors.c:21-33 | puts_err records a message unless one is recorded |
| Values.Report | src/compiler/errors.c:35-38 | each modelled err_ helper: puts_err, then the status overwritten |
| Values.FirstMessageWins | src/compiler/errors.c:21-38 | reporting twice keeps the first message and the last status |
| Scopes.Identifier.Free | src/compiler/identifier.c:34-45 | the type becomes INVALID and the attributes released |
| Scopes.EmptyScope | src/compiler/scope.c:18-25 | a scope of 128 empty buckets that finds nothing |
| Scopes.ResolveInNone | src/compiler/identifier.c:17-31 | resolution fails exactly when no scope has the name |
| Scopes.ResolveInInnermost | src/compiler/identifier.c:17-31 | the innermost scope binding the name wins |
| Scopes.CompilerState.Resolve | src/compiler/identifier.c:17-31 | resolve searches from the innermost scope outwards |
| Scopes.CompilerState.PushScope | src/compiler/stackops.c:6-9 | a new empty scope on top |
| Scopes.CompilerState.PopScope | src/compiler/stackops.c:11-14 | the top scope is freed and removed |
| Scopes.CompilerState.PushReflection | src/compiler/stackops.c:16-21 | the type is recorded with the current depth |
| Scopes.CompilerState.PopReflection | src/compiler/stackops.c:23-26 | the top reflection is dropped |
| Scopes.PushedScopeResolvesAsBefore | src/compiler/stackops.c:6-9 | pushing a scope hides nothing |
| Scopes.DeclarationShadows | src/compiler/identifier.c:17-31 | a fresh name declared innermost through hashmap_set as written shadows any outer one |
| Scopes.DeclarationLeavesOthers | src/compiler/identifier.c:17-31 | declaring one fresh name through hashmap_set as written leaves every other name as before |
| Scopes.FreshNameSetAsIntended | src/common/hashmap.c:75-98 | for a name the table does not hold, hashmap_set as written is the intended set |
| Scopes.ScopeRoundTrip | src/compiler/stackops.c:6-14 | pushing then popping a scope leaves both stacks as they were |
| Conversions.CastKindAsWrittenTable | src/compiler/conversions.c:17-24 | the cast primitive_convert picks by enum order |
| Conversions.SameWidthCastIsNotAWidthChange | src/compiler/conversions.c:17-24 | between equal-width integers the as-written choice names an extension or truncation that changes no width |
| Conversions.CastKind | src/compiler/conversions.c:7-48 | the corrected cast: none between equal-width integers, otherwise by width |
| Conversions.ImplicitConversionsWiden | src/compiler/conversions.c:7-48 | implicit conversions only widen, where both choices agree |
| Conversions.PrimitiveConvert | src/compiler/conversions.c:7-48 | a value of the target type, CONSTEXPR stays CONSTEXPR, else RVALUE |
| Conversions.PrimitiveConvertAsWritten | src/compiler/conversions.c:7-48 | every conversion between distinct primitives emits the enum-order cast |
| Conversions.ConvertCorrection | src/compiler/conversions.c:17-24 | the two differ only between distinct integers of equal width |
| Conversions.ConvertInplace | src/compiler/conversions.c:50-66 | the slot holds a value of the target type exactly when the result is true |
| Conversions.Convert | src/compiler/conversions.c:68-74 | a primitive conversion, or invalid |
| Conversions.Coerce | src/compiler/conversions.c:76-99 | both operands loaded and the smaller one converted to the greater type |
| Conversions.CoercePrimitives | src/compiler/conversions.c:76-99 | the outputs written through slots are Coerce's |
| Conversions.PointerToInt | src/compiler/conversions.c:101-116 | the loaded pointer as a `ulong` RVALUE |
| Conversions.ExplicitCast | src/compiler/conversions.c:118-179 | an explicit conversion `v as to` |
| Conversions.CastOnlyErrsOnFloatPointer | src/compiler/conversions.c:118-179 | a cast errs only between a pointer and a floating type |
| Arithmetic.ArithOpcode | src/compiler/arithmetic.c:20-65 | the opcode for each operation and type |
| Arithmetic.ArithOpcodeDeterminesOp | src/compiler/arithmetic.c:20-65 | the opcode determines the operation |
| Arithmetic.PrimitiveArithmetic | src/compiler/arithmetic.c:8-73 | both operands coerced; coercion failure or a recorded error gives invalid |
| Arithmetic.PrimitiveArithmeticOperandOrder | src/compiler/arithmetic.c:8-73 | swapping operands keeps type, class and failure |
| Arithmetic.MixedSignednessFails | src/compiler/arithmetic.c:8-73 | `int` with `uint` fails with an implicit-conversion error |
| Arithmetic.PointerArithmetic | src/compiler/arithmetic.c:75-145 | pointer minus pointer is the element count; pointer plus integer an offset |
| Arithmetic.ArithmeticAsWritten | src/compiler/arithmetic.c:147-171 | hands the unloaded operands to pointer_arithmetic |
| Arithmetic.PointerOffsetUsesVariableAddress | src/compiler/arithmetic.c:147-171 | as written, `p + 1` offsets the variable's own address |
| Arithmetic.PointerOffsetUsesLoadedValues | src/compiler/arithmetic.c:147-171 | corrected, the offset uses the loaded pointer |
| Arithmetic.CorrectionOnlyAffectsAllocas | src/compiler/arithmetic.c:147-171 | already-loaded operands are treated alike by both |
| Arithmetic.PointerDifferenceLoadsAnyway | src/compiler/arithmetic.c:75-145 | pointer difference is the same loaded or not |
| Arithmetic.UnaryArithmetic | src/compiler/arithmetic.c:173-219 | `+` copies, `-` negates, `-` on unsigned is an error |
| Arithmetic.UnaryPlusIsCopy | src/compiler/arithmetic.c:173-219 | unary plus emits nothing |
| Logic.IntPredicateOf | src/compiler/logic.c:30-70 | equality ignores signedness, ordering does not |
| Logic.MirrorCommutes | src/compiler/logic.c:30-70 | mirroring is an involution and commutes with the predicate choice |
| Logic.PrimitiveComparison | src/compiler/logic.c:9-97 | operands coerced and compared; the result is bool |
| Logic.Comparison | src/compiler/logic.c:99-161 | primitives compared loaded; pointers to the same type as unsigned integers; others an error |
| Logic.MirroredIntegerComparison | src/compiler/logic.c:9-97 | comparing the other way with the mirrored operator compares alike |
| Logic.PointerComparisonIsUnsigned | src/compiler/logic.c:99-161 | same-type pointers always compare unsigned |
| Logic.BinaryLogic | src/compiler/logic.c:163-226 | the loaded operands are overwritten in place; only bools are accepted |
| Logic.LogicNeedsBools | src/compiler/logic.c:163-226 | only bool operands, with no conversion emitted |
| Mem.TryLoad | src/compiler/mem.c:54-76 | an ALLOCA becomes an LVALUE remembering its address; others copied |
| Mem.TryLoadIdempotent | src/compiler/mem.c:54-76 | loading twice is loading once |
| Mem.TryLoadInplace | src/compiler/mem.c:20-52 | the slot is overwritten with its loaded form |
| Mem.AddressOf | src/compiler/mem.c:79-103 | the address of an ALLOCA or LVALUE as a pointer RVALUE; else an error |
| Mem.Deref | src/compiler/mem.c:105-140 | `@p` is an LVALUE of the pointee type at the pointer |
| Mem.DerefOfAddressOfIsLoad | src/compiler/mem.c:79-140 | dereferencing an address is loading the variable |
| Mem.AddressOfDerefIsPointer | src/compiler/mem.c:79-140 | taking the address of a dereference gives the pointer back |
| Mem.StoreEffect | src/compiler/mem.c:7-18 | structs are copied with memcpy, others stored |
| Ops.Code | src/compiler/op.c:5-46 | the enumerator values, in 0 to 22 with 7 to 13 unused |
| Ops.CodeRoundTrip | src/compiler/op.c:5-46 | distinct operators have distinct codes that decode back |
| Ops.GetOpFromAstNode | src/compiler/op.c:5-46 | the result is -1 or a code that decodes to an operator |
| Ops.NodeCodeAgrees | src/compiler/op.c:5-46 | every operator node maps to its operator's code |
| Ops.NodeCodeIsExact | src/compiler/op.c:5-46 | a code other than -1 names the node's operator |
| Ops.NonOperatorNodes | src/compiler/op.c:5-46 | alternate operators, assignments and member access have no code |
| Ops.ArithSymbol | src/compiler/op.c:48-61 | each arithmetic operator prints as one character |
| Ops.CompareSymbol | src/compiler/op.c:63-78 | each comparison prints as one or two characters |
| Ops.SymbolsAreDistinct | src/compiler/op.c:48-78 | distinct operators print distinctly |
| Assignment.Assign | src/compiler/mem.c:142-182 | `target = from`: an rvalue target or an impossible conversion is an error; otherwise the converted value is stored |

## Left out

- Lexer.Lex: requires a source without NUL bytes. In the C a NUL in the peek or push-back slot means "empty" (`src/parser/lexer.c:87-125`). After a NUL, consume_ch therefore reads and drops the following byte, so `"a<NUL>bc"` loses the `b`. The model's cursor treats a NUL as an ordinary byte, and the equality with LexSpec.Lex is proved only for NUL-free input.
- LexSpec.Lex: treats NUL as an ordinary byte. On input containing NUL it does not reproduce the byte the C loses after a peeked NUL.
- LexSpec.MessageText: renders the byte the `{c}` messages evidently intend, through readable_char. The C passes readable_char's `char[4]` buffer (`src/parser/lexer.c:191,209,220,234,575,621`) where format's `{c}` fetches an `int` (`src/common/str.c:381`). That is undefined behaviour, so the byte the C prints is unspecified. The `{cstr}` message at line 426 is well defined and is modelled exactly.
- ParseExpr.Evaluative: the outermost postfix node's position is left as malloc returns it in the C. The model writes Unset, `(0, 0, 0)`, since any value stands for that garbage.
- ParseDecl.Found: a float literal's text in the ", found" message is not modelled. token_contents formats floats with `{f32}`/`{f64}` (floating point), and the model uses the empty text there.
- Str.Format: `f32`, `f64`, `cpf`, `i64` and `u64` specs stop formatting with FmtUnsupported rather than render. Floats and C printf formats are outside the model. `i64`/`u64` fetch their argument through `va_arg(args, int)` and depend on the platform's argument passing.
- Ast.NodeValue: the C's `union` value is kept as separate fields (number, identifier, attributes). Reading a member other than the one last written is not modelled.
- TypeNodes.ParamTypes: a PARAM_LIST node without a left child and an identifier-less parameter are read as void. The C dereferences NULL there.
- TypeNodes.FieldTypes: a field node without a left child gives an empty name and a void type. The C dereferences NULL there.
- TypeNodes.FromNode: the name lookup is a map from names to the types they resolve to. It stands for resolve over the scope stack, which Scopes models separately. The parameter and field loops are written as recursion.
- TypeNodes.FromNode: LLVM type handles are not built.
- TypeNodes.FromNode: its STRUCT_DEF case builds the field table through FieldTypes, that is with the corrected hashmap_set (see the next line).
- TypeNodes.FieldTypes: the field table is filled with the corrected Put. The C's hashmap_set frees a repeated name's key and leaves that entry unnamed, so `int a; byte a; int b; byte b;` ends with two entries named "" (Findings row for type.c:196-202; PutAsWritten and RepeatedFieldLosesName model it as written).
- ParseStmt.Statement: the error buffer shared by the copy `Sp = *S` (`src/parser/parser.c:908`) is not modelled. When a statement starts with the error already set and the expression attempt fails, `CLEAR_ERR(&Sp)` (line 915), or factor's own CLEAR_ERR during the attempt, frees the buffer S still holds; gramina_parse later prints it and appends to it (lines 112-120). Example: `fn main() { int x = a + ; int z; }`. The model's message is the intact text, so its Failure is a best case of that undefined behaviour.
- Parser.ParserState.Statement: inherits the ParseStmt.Statement gap: the buffer freed through the copy is not modelled.
- Parser.ParserState.ExpressionOrDeclaration: the copy is a separate object, so its ClearErr frees nothing the state holds. The C's copy shares the error buffer, which the ParseStmt.Statement line describes; that shared buffer is not modelled.
- Conversions.PrimitiveConvert: Conversions.Convert, Conversions.ConvertInplace, Conversions.Coerce, Conversions.ExplicitCast and Assignment.Assign build on it, so they use the corrected CastKind; with the as-written choice they differ only in the cast named between equal-width integers.
- Parser: the expression and statement rules run as functions inside the ParserState methods (ParserState.Statement takes the result of ParseStmt.Statement). The in-place cursor updates of the expression rules and the parent pointers of the C's tree are not modelled. The loops of `function_body`, `struct_def`, `global_statement`, `typename` and `gramina_parse` are methods with loop invariants.
- Allocation failures: every allocation is assumed to succeed. gramina_malloc is plain malloc; a NULL result is not modelled.
- LLVM: IR building is symbolic (a handle naming the builder call and its operands). No instruction semantics are modelled.
- Memory: freeing is modelled for hashmap_set's key, symattr_free and opt_free only. Leaks, double frees and reads of freed memory are not tracked; the error buffer ParseStmt.Statement's line describes is one such read.
- Debug output: print_parser_state, ast_print and elog are not modelled.
- Integer widths: 64-bit wrap-around is explicit in the string conversions and the hash. Hashmaps.ByteBits takes `char` as signed, as on x86-64 and most ABIs; where `char` is unsigned the hash of a byte of 0x80 or more differs. The token type and node type enums are Dafny datatypes, with their numeric codes given where the source relies on them (Ops.Code).
- type_dup, type_free, struct_field_free, gramina_decltype and gramina_type_from_primitive are not part of this model.

## Findings

| source | as written | input that shows it | evidently intended | confidence | as-written member | corrected member |
|---|---|---|---|---|---|---|
| include/common/array.h:169-176 | array_dup copies the items into a buffer of the same capacity but never sets the copy's length | any array with at least one item: its copy has length 0 | the copy holds the same items | high, not executed | Arrays.Array.DupAsWritten | Arrays.Array.Dup |
| src/common/hashmap.c:75-98 | hashmap_set frees the matched entry's key string along with the old value | setting the same new key twice: afterwards the key finds nothing | the entry keeps its key and takes the new value | high, not executed | Hashmaps.OverwriteLosesKey | Hashmaps.Hashmap.Set |
| src/compiler/type.c:196-202 | the struct field table is filled with hashmap_set, which frees a matched entry's key | `struct S { int a; byte a; long a; }`: the table ends as an unnamed `byte` field and `a: long` | a repeated field name keeps its name and takes the new type | high, not executed | TypeNodes.RepeatedFieldLosesName | TypeNodes.PutLookup |
| src/common/hashmap.c:55-73 | hashmap_dup copies each bucket with array_dup, so every copied bucket has length 0 | a map holding any key: the copy finds nothing | the copy finds what the original finds | high, not executed | Hashmaps.DupAsWrittenFindsNothing | Hashmaps.Hashmap.Dup |
| src/common/error.c:7-82 | highlight_line compares the start column only after advancing past the first byte | source `ab\n`, range line 1 columns 1 to 1: highlighting is switched off after `a` but never on | a one-line range from column 1 is highlighted from its first byte | medium, not executed | Errors.SingleLineFromColumnOne | Errors.HighlightLine |
| src/compiler/arithmetic.c:147-171 | arithmetic loads both operands but passes the unloaded ones to pointer_arithmetic | `p + 1` with `p` a pointer variable offsets the address of `p` itself | the loaded pointer is offset | medium, not executed | Arithmetic.PointerOffsetUsesVariableAddress | Arithmetic.PointerOffsetUsesLoadedValues |
| src/compiler/conversions.c:17-24 | primitive_convert picks Trunc, ZExt or SExt by enum order (`p_from > p_to`) | `int` to `uint`: SExt is named between two 32-bit types | no cast between integers of equal width; LLVM's IRBuilder::CreateCast already returns its operand when the types are equal, so the IR emitted is the same and only the cast named differs | low, not executed | Conversions.SameWidthCastIsNotAWidthChange | Conversions.ConvertCorrection |
