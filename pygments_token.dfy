/**
 * Pygments token types as the CodeChat translators see them. A token type is
 * a path in Pygments' type tree (Token.Comment.Single is ["Comment", "Single"]);
 * `t in T` holds when T's path is a prefix of t's, and `==` / `is` compare
 * paths. The lexers themselves are not part of this model: token streams are
 * inputs.
 */
module PygmentsToken {
  import opened PyText

  datatype TokenType = TokenType(path: seq<string>)

  /** One lexer token: its type and its text. */
  datatype Tok = Tok(ttype: TokenType, value: string)

  /** `t in parent`: t is parent or one of its subtypes. */
  predicate In(t: TokenType, parent: TokenType)
  {
    |parent.path| <= |t.path| && t.path[..|parent.path|] == parent.path
  }

  const Text := TokenType(["Text"])
  /** Token.Whitespace, a top-level type (not Token.Text.Whitespace). */
  const Whitespace := TokenType(["Whitespace"])
  const Comment := TokenType(["Comment"])
  const CommentSingle := TokenType(["Comment", "Single"])
  const CommentSingleline := TokenType(["Comment", "Singleline"])
  const CommentMultiline := TokenType(["Comment", "Multiline"])
  const StringDoc := TokenType(["Literal", "String", "Doc"])

  predicate IsCommentType(t: TokenType)
  {
    t == Comment || t == CommentSingle || t == CommentSingleline || t == CommentMultiline
  }

  /** No comment type lies under Token.Text or Token.Whitespace. */
  lemma CommentsAreNotText(t: TokenType)
    ensures IsCommentType(t) ==> !In(t, Text) && !In(t, Whitespace)
  {
    if IsCommentType(t) {
      assert t.path[0] == "Comment";
      assert "Comment" != "Text" && "Comment" != "Whitespace";
    }
  }

  /** The values of a token stream, in order. */
  function Values(ts: seq<Tok>): (r: seq<string>)
    ensures |r| == |ts|
    ensures forall i :: 0 <= i < |ts| ==> r[i] == ts[i].value
  {
    seq(|ts|, i requires 0 <= i < |ts| => ts[i].value)
  }

  lemma ValuesAppend(a: seq<Tok>, b: seq<Tok>)
    ensures Values(a + b) == Values(a) + Values(b)
  {
  }

  /** The text a token stream spells. */
  function Spelled(ts: seq<Tok>): string
  {
    Concat(Values(ts))
  }

  lemma SpelledAppend(a: seq<Tok>, b: seq<Tok>)
    ensures Spelled(a + b) == Spelled(a) + Spelled(b)
  {
    ValuesAppend(a, b);
    ConcatAppend(Values(a), Values(b));
  }

  lemma SpelledOne(t: Tok)
    ensures Spelled([t]) == t.value
  {
    assert Values([t]) == [t.value];
    ConcatOne(t.value);
  }

  lemma SpelledSnoc(a: seq<Tok>, t: Tok)
    ensures Spelled(a + [t]) == Spelled(a) + t.value
  {
    SpelledAppend(a, [t]);
    SpelledOne(t);
  }
}
