/**
 * The query part of a URL as the browse page sees it: an ordered list of
 * name/value pairs (`URLSearchParams`), its `get` and `set`, its
 * serialisation with `toString()`, and the parse a browser applies to the
 * query of the location it navigates to (the `searchParams` the page reads).
 *
 * The percent-encoding of the application/x-www-form-urlencoded format
 * (section 5 of the WHATWG URL Standard) is not derived here: it is a pair
 * of functions given as a parameter, assumed inverse to each other.
 */
module SearchParams {
  import opened Options
  import opened Strings

  type Params = seq<(string, string)>

  /** The names of the pairs, in order. */
  function Names(ps: Params): (names: seq<string>)
    ensures |names| == |ps|
    ensures forall i :: 0 <= i < |ps| ==> names[i] == ps[i].0
  {
    if ps == [] then [] else [ps[0].0] + Names(ps[1..])
  }

  /** No name occurs twice: the shape `set` leaves behind. */
  predicate UniqueNames(ps: Params)
  {
    forall i, j :: 0 <= i < j < |ps| ==> ps[i].0 != ps[j].0
  }

  /** `params.get(name)`: the value of the first pair with that name, `null` (None) if there is none. */
  function Get(ps: Params, name: string): (r: Option<string>)
    ensures r.None? <==> name !in Names(ps)
    ensures r.Some? ==> (name, r.value) in ps
  {
    if ps == [] then None
    else if ps[0].0 == name then Some(ps[0].1)
    else Get(ps[1..], name)
  }

  /** The pair `Get` reads is the first one with that name: no pair before it carries the name. */
  lemma {:induction false} GetFirst(ps: Params, name: string)
    requires Get(ps, name).Some?
    ensures exists i :: 0 <= i < |ps| && ps[i] == (name, Get(ps, name).value) &&
                        (forall j :: 0 <= j < i ==> ps[j].0 != name)
  {
    if ps[0].0 != name {
      GetFirst(ps[1..], name);
      var i :| 0 <= i < |ps[1..]| && ps[1..][i] == (name, Get(ps[1..], name).value) &&
               (forall j :: 0 <= j < i ==> ps[1..][j].0 != name);
      assert ps[i + 1] == (name, Get(ps, name).value);
      assert forall j :: 0 <= j < i + 1 ==> ps[j].0 != name by {
        forall j | 0 <= j < i + 1
          ensures ps[j].0 != name
        {
          if j > 0 {
            assert ps[j] == ps[1..][j - 1];
          }
        }
      }
    } else {
      assert ps[0] == (name, Get(ps, name).value);
    }
  }

  /** The pairs with the given name removed. */
  function Remove(ps: Params, name: string): (r: Params)
    ensures name !in Names(r)
    ensures forall n :: n != name ==> Get(r, n) == Get(ps, n)
    ensures forall p :: p in r ==> p in ps
  {
    if ps == [] then []
    else if ps[0].0 == name then Remove(ps[1..], name)
    else [ps[0]] + Remove(ps[1..], name)
  }

  /** Replaces the value of the first pair with the given name and drops the later ones. */
  function ReplaceFirst(ps: Params, name: string, value: string): (r: Params)
    requires name in Names(ps)
    ensures Get(r, name) == Some(value)
    ensures forall n :: n != name ==> Get(r, n) == Get(ps, n)
    ensures forall p :: p in r ==> p in ps || p == (name, value)
  {
    if ps[0].0 == name then [(name, value)] + Remove(ps[1..], name)
    else [ps[0]] + ReplaceFirst(ps[1..], name, value)
  }

  /**
   * `params.set(name, value)`: if a pair with that name exists, the first
   * one takes the new value and the others go; otherwise the pair is
   * appended at the end.
   */
  function Set(ps: Params, name: string, value: string): (r: Params)
    ensures Get(r, name) == Some(value)
    ensures forall n :: n != name ==> Get(r, n) == Get(ps, n)
    ensures name !in Names(ps) ==> r == ps + [(name, value)]
  {
    if name in Names(ps) then ReplaceFirst(ps, name, value)
    else GetAfterAppend(ps, name, value); ps + [(name, value)]
  }

  /** Appending a pair with a new name makes it visible to `get` and hides nothing. */
  lemma {:induction false} GetAfterAppend(ps: Params, name: string, value: string)
    requires name !in Names(ps)
    ensures Get(ps + [(name, value)], name) == Some(value)
    ensures forall n :: n != name ==> Get(ps + [(name, value)], n) == Get(ps, n)
  {
    if ps != [] {
      assert (ps + [(name, value)])[1..] == ps[1..] + [(name, value)];
      assert Names(ps)[0] == ps[0].0;
      GetAfterAppend(ps[1..], name, value);
    }
  }

  /** After `set`, no name occurs twice if none did before. */
  lemma SetKeepsNamesUnique(ps: Params, name: string, value: string)
    requires UniqueNames(ps)
    ensures UniqueNames(Set(ps, name, value))
  {
    if name in Names(ps) {
      ReplaceFirstKeepsNamesUnique(ps, name, value);
    } else {
      var r := ps + [(name, value)];
      forall i, j | 0 <= i < j < |r| ensures r[i].0 != r[j].0 {
        if j == |ps| {
          assert Names(ps)[i] == ps[i].0;
        }
      }
    }
  }

  lemma {:induction false} RemoveKeepsNamesUnique(ps: Params, name: string)
    requires UniqueNames(ps)
    ensures UniqueNames(Remove(ps, name))
  {
    if ps != [] {
      RemoveKeepsNamesUnique(ps[1..], name);
      if ps[0].0 != name {
        var rest := Remove(ps[1..], name);
        forall j | 0 <= j < |rest| ensures rest[j].0 != ps[0].0 {
          assert rest[j] in rest;
          assert rest[j] in ps[1..];
          var k :| 0 <= k < |ps[1..]| && ps[1..][k] == rest[j];
          assert ps[k + 1] == rest[j];
        }
      }
    }
  }

  lemma {:induction false} ReplaceFirstKeepsNamesUnique(ps: Params, name: string, value: string)
    requires UniqueNames(ps)
    requires name in Names(ps)
    ensures UniqueNames(ReplaceFirst(ps, name, value))
  {
    if ps[0].0 == name {
      RemoveKeepsNamesUnique(ps[1..], name);
      var rest := Remove(ps[1..], name);
      forall j | 0 <= j < |rest| ensures rest[j].0 != name {
        assert Names(rest)[j] == rest[j].0;
      }
    } else {
      var i :| 0 <= i < |ps| && Names(ps)[i] == name;
      assert Names(ps[1..])[i - 1] == name;
      ReplaceFirstKeepsNamesUnique(ps[1..], name, value);
      var rest := ReplaceFirst(ps[1..], name, value);
      forall j | 0 <= j < |rest| ensures rest[j].0 != ps[0].0 {
        assert rest[j] in ps[1..] || rest[j] == (name, value);
        if rest[j] in ps[1..] {
          assert rest[j] in rest;
          assert rest[j] in ps[1..];
          var k :| 0 <= k < |ps[1..]| && ps[1..][k] == rest[j];
          assert ps[k + 1] == rest[j];
        }
      }
    }
  }

  /**
   * The application/x-www-form-urlencoded byte serializer and string
   * parser, reduced to what the round trip needs: `encode` maps a name or
   * value to text without `&`, `=` or `#` (the serializer percent-encodes
   * them), and `decode` undoes it.
   */
  datatype FormCodec = FormCodec(encode: string -> string, decode: string -> string)

  ghost predicate ValidCodec(c: FormCodec)
  {
    forall s :: c.decode(c.encode(s)) == s && '&' !in c.encode(s) && '=' !in c.encode(s) && '#' !in c.encode(s)
  }

  function Pieces(ps: Params, c: FormCodec): (pieces: seq<string>)
    ensures |pieces| == |ps|
  {
    if ps == [] then [] else [c.encode(ps[0].0) + "=" + c.encode(ps[0].1)] + Pieces(ps[1..], c)
  }

  /** `params.toString()`: `name=value` pieces joined by `&`. */
  function Serialize(ps: Params, c: FormCodec): string
  {
    Join(Pieces(ps, c), '&')
  }

  /**
   * One `name=value` piece: the name is what precedes the first `=`, the
   * value all that follows it; a piece without `=` has the empty value.
   */
  function ParsePiece(piece: string, c: FormCodec): (string, string)
  {
    var parts := Split(piece, '=');
    (c.decode(parts[0]), if |parts| == 1 then "" else c.decode(Join(parts[1..], '=')))
  }

  function ParsePieces(pieces: seq<string>, c: FormCodec): Params
  {
    if pieces == [] then []
    else (if pieces[0] == "" then [] else [ParsePiece(pieces[0], c)]) + ParsePieces(pieces[1..], c)
  }

  /** The form-urlencoded parser: split on `&`, skip empty pieces, split each at its first `=`. */
  function Parse(query: string, c: FormCodec): Params
  {
    ParsePieces(Split(query, '&'), c)
  }

  lemma {:induction false} ParsePiecesOfPieces(ps: Params, c: FormCodec)
    requires ValidCodec(c)
    ensures ParsePieces(Pieces(ps, c), c) == ps
  {
    if ps != [] {
      var (n, v) := ps[0];
      var piece := c.encode(n) + "=" + c.encode(v);
      assert piece == c.encode(n) + ['='] + c.encode(v);
      SplitAtFirst(c.encode(n), c.encode(v), '=');
      SplitWithoutSeparator(c.encode(v), '=');
      assert Split(piece, '=') == [c.encode(n), c.encode(v)];
      assert ParsePiece(piece, c) == (n, v);
      assert piece != "";
      ParsePiecesOfPieces(ps[1..], c);
    }
  }

  /** Parsing what `toString()` produced gives back the same pairs, in the same order. */
  lemma SerializeRoundTrip(ps: Params, c: FormCodec)
    requires ValidCodec(c)
    ensures Parse(Serialize(ps, c), c) == ps
  {
    var pieces := Pieces(ps, c);
    if ps == [] {
      assert pieces == [];
      assert Split("", '&') == [""];
      assert ParsePieces([""], c) == [] + ParsePieces([], c);
    } else {
      forall i | 0 <= i < |pieces| ensures '&' !in pieces[i] {
        PieceAt(ps, c, i);
      }
      SplitJoin(pieces, '&');
      ParsePiecesOfPieces(ps, c);
    }
  }

  lemma {:induction false} PieceAt(ps: Params, c: FormCodec, i: nat)
    requires ValidCodec(c)
    requires i < |ps|
    ensures Pieces(ps, c)[i] == c.encode(ps[i].0) + "=" + c.encode(ps[i].1)
    ensures '&' !in Pieces(ps, c)[i] && '#' !in Pieces(ps, c)[i]
  {
    if i > 0 {
      PieceAt(ps[1..], c, i - 1);
    }
  }

  /** Serialising gives the empty string exactly when there are no pairs. */
  lemma SerializeIsEmpty(ps: Params, c: FormCodec)
    ensures Serialize(ps, c) == "" <==> ps == []
  {
    var pieces := Pieces(ps, c);
    JoinIsEmpty(pieces, '&');
    if ps != [] {
      assert '=' in pieces[0];
    }
  }

  /** The query of a URL: the text after its first `?`, up to a `#`; empty when there is no `?`. */
  function QueryOf(url: string): string
  {
    var parts := Split(url, '?');
    if |parts| == 1 then "" else Split(Join(parts[1..], '?'), '#')[0]
  }

  /** The `searchParams` of the location a navigation to `url` reaches. */
  function SearchParamsOf(url: string, c: FormCodec): Params
  {
    Parse(QueryOf(url), c)
  }

  /** The query of `path?q` is `q`, and a path with no `?` has an empty query. */
  lemma QueryAfterPath(path: string, q: string)
    requires '?' !in path && '#' !in q
    ensures QueryOf(path) == ""
    ensures QueryOf(path + "?" + q) == q
  {
    SplitWithoutSeparator(path, '?');
    assert path + "?" + q == path + ['?'] + q;
    SplitAtFirst(path, q, '?');
    var parts := Split(path + "?" + q, '?');
    assert parts[1..] == Split(q, '?');
    JoinSplit(q, '?');
    SplitWithoutSeparator(q, '#');
  }
}
