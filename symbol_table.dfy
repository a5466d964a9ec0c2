/**
 * The lexer package's symbol table: a mutable map from an identifier's lexeme
 * to a row holding a type string. Rows are keyed by lexeme, so word tokens with
 * equal lexemes share one row.
 */
module LexicalSymbolTable {
  import opened Tokens

  class SymbolTable {
    /** lexeme -> the row's `type` column. */
    var rows: map<string, string>

    /** A new table has no rows. */
    constructor ()
      ensures rows == map[]
    {
      rows := map[];
    }

    /** put(token, type): the token's lexeme now maps to a fresh row with `type`. */
    method PutWithType(token: Token, ty: string)
      requires token.WordToken?
      modifies this
      ensures rows == old(rows)[token.lexeme := ty]
      ensures forall x :: x in old(rows) ==> x in rows
      ensures forall x :: x in rows && x != token.lexeme ==> x in old(rows) && rows[x] == old(rows)[x]
    {
      rows := rows[token.lexeme := ty];
    }

    /** put(token): like put(token, " "), replacing any earlier row for the lexeme. */
    method Put(token: Token)
      requires token.WordToken?
      modifies this
      ensures rows == old(rows)[token.lexeme := " "]
      ensures token.lexeme in rows && rows[token.lexeme] == " "
    {
      rows := rows[token.lexeme := " "];
    }

    /**
     * update(token, type): change the type of the lexeme's existing row. The
     * source dereferences a missing row; here that failure is `ok == false`,
     * and the table is then left as it was.
     */
    method Update(token: Token, ty: string) returns (ok: bool)
      requires token.WordToken?
      modifies this
      ensures ok <==> token.lexeme in old(rows)
      ensures ok ==> rows == old(rows)[token.lexeme := ty]
      ensures ok ==> rows.Keys == old(rows).Keys
      ensures !ok ==> rows == old(rows)
    {
      if token.lexeme !in rows {
        return false;
      }
      rows := rows[token.lexeme := ty];
      return true;
    }
  }

  /** Two word tokens with equal lexemes reach the same row, whatever their kinds. */
  method SharedRow(t1: Token, t2: Token, ty: string) returns (seen: string)
    requires t1.WordToken? && t2.WordToken? && t1.lexeme == t2.lexeme
    ensures seen == ty
  {
    var st := new SymbolTable();
    st.PutWithType(t1, ty);
    seen := st.rows[t2.lexeme];
  }

  /** A put followed by an update of the same lexeme leaves only the updated type. */
  method PutThenUpdate(t: Token, ty: string) returns (rows: map<string, string>)
    requires t.WordToken?
    ensures rows == map[t.lexeme := ty]
  {
    var st := new SymbolTable();
    st.Put(t);
    var ok := st.Update(t, ty);
    assert ok;
    rows := st.rows;
  }
}
