/** Keyword categorisation of seeded products: the title and description are
    normalised, and the product gets the first two categories (in the table's order)
    that have a keyword occurring in the text, or "Otros" when none has. */
module Categorizer {
  import opened Seqs
  import opened Text

  /** The characters the normaliser keeps: ASCII letters and digits, the space and the
      Spanish accented letters. */
  predicate Kept(c: char) {
    IsAsciiLetter(c) || IsDigit(c) || c == ' ' || c in "áéíóúüñÁÉÍÓÚÜÑ"
  }

  /** `re.sub(r'[^a-zA-ZáéíóúüñÁÉÍÓÚÜÑ0-9 ]', '', s.lower())`. */
  function Normalize(s: string): (r: string)
    ensures forall c :: c in r ==> Kept(c) && LowerChar(c) == c
    ensures |r| <= |s|
  {
    if s == [] then []
    else
      var c := LowerChar(s[0]);
      (if Kept(c) then [c] else []) + Normalize(s[1..])
  }

  /** Normalising twice is normalising once. */
  lemma {:induction false} NormalizeIdempotent(s: string)
    ensures Normalize(Normalize(s)) == Normalize(s)
  {
    NormalizeFixes(Normalize(s));
  }

  /** A string of kept lower-case characters is its own normal form. */
  lemma {:induction false} NormalizeFixes(s: string)
    requires forall c :: c in s ==> Kept(c) && LowerChar(c) == c
    ensures Normalize(s) == s
    decreases |s|
  {
    if s != [] {
      assert s[0] in s;
      assert forall c :: c in s[1..] ==> c in s;
      NormalizeFixes(s[1..]);
      assert s == [s[0]] + s[1..];
    }
  }

  /** `CATEGORIA_KEYWORDS`, in declaration order. */
  const Keywords: seq<(string, seq<string>)> := [
    ("Electrónica", ["iphone", "samsung", "celular", "smartphone", "android", "móvil", "telefono", "teléfono",
                     "macbook", "notebook", "laptop", "computadora", "pc", "ordenador", "portátil", "tv",
                     "televisor", "pantalla", "auriculares", "bluetooth", "cámara", "polaroid"]),
    ("Muebles", ["silla", "mesa", "sillón", "sofá", "placard", "escritorio", "ratona", "luz", "gamer",
                 "plegable", "jardín", "mesa de luz", "mesa de jardín", "silla de jardín"]),
    ("Ropa y Accesorios", ["zapatillas", "camiseta", "pantalón", "remera", "vestido", "ropa", "jean",
                           "adidas", "nike"]),
    ("Deportes", ["bicicleta", "bici", "mountain bike", "bmx", "ruta", "raqueta", "tenis", "fútbol",
                  "deporte", "pelota"]),
    ("Hogar y Jardín", ["sábanas", "ollas", "lámpara", "heladera", "refrigerador", "microondas",
                        "lavarropas", "licuadora", "batidora", "cocina", "jardín", "mesa de jardín",
                        "silla de jardín"]),
    ("Juguetes", ["muñeca", "juguete", "lego", "barbie", "star wars", "didáctico", "cochecito",
                  "batería infantil"]),
    ("Libros", ["libro", "novela", "cuento", "harry potter", "rayuela", "principito", "don quijote"]),
    ("Instrumentos Musicales", ["guitarra", "batería", "teclado", "piano", "fender", "ibanez", "yamaha"]),
    ("Otros", [])
  ]

  /** Some keyword of the list occurs in the text. */
  ghost predicate AnyKeyword(keywords: seq<string>, text: string) {
    exists k :: 0 <= k < |keywords| && IsSubstring(keywords[k], text)
  }

  /** The categories with a keyword in the text, in table order. */
  ghost function Matching(table: seq<(string, seq<string>)>, text: string): (r: seq<string>)
    ensures |r| <= |table|
  {
    if table == [] then []
    else (if AnyKeyword(table[0].1, text) then [table[0].0] else []) + Matching(table[1..], text)
  }

  /** The result `categorizar_producto` gives for a normalised text. */
  ghost function Categories(table: seq<(string, seq<string>)>, text: string): seq<string> {
    if Matching(table, text) == [] then ["Otros"] else PyPrefix(Matching(table, text), 2)
  }

  /** The inner loop: `for kw in keywords: if kw in texto: ... break`. */
  method HasKeyword(keywords: seq<string>, text: string) returns (found: bool)
    ensures found <==> AnyKeyword(keywords, text)
  {
    found := false;
    var k := 0;
    while k < |keywords|
      invariant 0 <= k <= |keywords|
      invariant forall j :: 0 <= j < k ==> !IsSubstring(keywords[j], text)
    {
      if Contains(text, keywords[k]) {
        found := true;
        break;
      }
      k := k + 1;
    }
  }

  /** `categorizar_producto(titulo, descripcion)` over a keyword table. */
  method Categorize(table: seq<(string, seq<string>)>, title: string, description: string)
    returns (found: seq<string>)
    ensures found == Categories(table, Normalize(title + " " + description))
  {
    var text := Normalize(title + " " + description);
    found := [];
    for i := 0 to |table|
      invariant found == Matching(table[..i], text)
    {
      var hit := HasKeyword(table[i].1, text);
      if hit {
        found := found + [table[i].0];
      }
      MatchingAppend(table[..i], table[i], text);
      assert table[..i + 1] == table[..i] + [table[i]];
    }
    assert table[..|table|] == table;
    if found == [] {
      found := ["Otros"];
    }
    found := PyPrefix(found, 2);
  }

  lemma {:induction false} MatchingAppend(table: seq<(string, seq<string>)>, entry: (string, seq<string>), text: string)
    ensures Matching(table + [entry], text)
         == Matching(table, text) + (if AnyKeyword(entry.1, text) then [entry.0] else [])
    decreases |table|
  {
    if table == [] {
      assert [entry][1..] == [];
    } else {
      assert (table + [entry])[1..] == table[1..] + [entry];
      MatchingAppend(table[1..], entry, text);
    }
  }

  /** The category names of the table, in order. */
  function Names(table: seq<(string, seq<string>)>): (r: seq<string>)
    ensures |r| == |table|
    ensures forall i :: 0 <= i < |table| ==> r[i] == table[i].0
  {
    if table == [] then [] else [table[0].0] + Names(table[1..])
  }

  /** A category is listed when one of its keywords occurs, each in table order; a
      category without keywords never is. */
  lemma {:induction false} MatchingSpec(table: seq<(string, seq<string>)>, text: string)
    ensures forall c :: c in Matching(table, text) <==>
              exists i :: 0 <= i < |table| && table[i].0 == c && AnyKeyword(table[i].1, text)
    ensures IsSubsequence(Matching(table, text), Names(table))
    decreases |table|
  {
    if table != [] {
      MatchingSpec(table[1..], text);
      var m, names := Matching(table, text), Names(table);
      assert names == [table[0].0] + Names(table[1..]);
      if AnyKeyword(table[0].1, text) {
        assert m == [table[0].0] + Matching(table[1..], text);
        SubsequenceCons(table[0].0, Matching(table[1..], text), Names(table[1..]));
      } else {
        assert m == Matching(table[1..], text);
        SubsequenceOfTail(m, table[0].0, Names(table[1..]));
      }
      forall c ensures c in Matching(table, text) <==>
                       exists i :: 0 <= i < |table| && table[i].0 == c && AnyKeyword(table[i].1, text) {
        if c !in Matching(table, text) {
          forall i | 1 <= i < |table| ensures !(table[i].0 == c && AnyKeyword(table[i].1, text)) {
            assert table[1..][i - 1] == table[i];
          }
        } else if c in Matching(table[1..], text) {
          var i :| 0 <= i < |table[1..]| && table[1..][i].0 == c && AnyKeyword(table[1..][i].1, text);
          assert table[i + 1] == table[1..][i];
        }
      }
    }
  }

  /** The categories of a product: one or two of them, "Otros" exactly when no keyword
      of any category occurs, otherwise the first two categories with a keyword. */
  lemma CategoriesSpec(text: string)
    ensures 1 <= |Categories(Keywords, text)| <= 2
    ensures Categories(Keywords, text) == ["Otros"] <==> Matching(Keywords, text) == []
    ensures Matching(Keywords, text) != [] ==>
              Categories(Keywords, text) == Matching(Keywords, text)[..if |Matching(Keywords, text)| < 2 then 1 else 2]
    ensures forall c :: c in Categories(Keywords, text) && c != "Otros" ==>
              exists i :: 0 <= i < |Keywords| && Keywords[i].0 == c && AnyKeyword(Keywords[i].1, text)
  {
    OtrosNeverMatches(text);
    CategoriesShape(Keywords, text);
    MatchingSpec(Keywords, text);
  }

  /** For a table where "Otros" is never a matching category, the categories are the
      first one or two matches, or "Otros" alone. */
  lemma CategoriesShape(table: seq<(string, seq<string>)>, text: string)
    requires "Otros" !in Matching(table, text)
    ensures 1 <= |Categories(table, text)| <= 2
    ensures Categories(table, text) == ["Otros"] <==> Matching(table, text) == []
    ensures Matching(table, text) != [] ==>
              Categories(table, text) == Matching(table, text)[..if |Matching(table, text)| < 2 then 1 else 2]
    ensures forall c :: c in Categories(table, text) && c != "Otros" ==> c in Matching(table, text)
  {
    var m := Matching(table, text);
    if m != [] {
      var r := PyPrefix(m, 2);
      assert r[0] == m[0] && m[0] in m;
      assert forall c :: c in r ==> c in m;
    }
  }

  /** The first letters of the table's category names, which are all different. */
  const Initials := "EMRDHJLIO"

  lemma NameInitials()
    ensures forall i :: 0 <= i < |Keywords| ==> Keywords[i].0 != [] && Keywords[i].0[0] == Initials[i]
  {
  }

  /** "Otros" has no keywords, and no other category has that name, so it never
      matches. */
  lemma OtrosNeverMatches(text: string)
    ensures "Otros" !in Matching(Keywords, text)
  {
    forall i | 0 <= i < |Keywords| ensures Keywords[i].0 == "Otros" ==> Keywords[i].1 == [] {
      NameInitials();
      assert i == 8 || Initials[i] != 'O';
    }
    UnmatchedName(Keywords, text, "Otros");
  }

  /** A name whose every entry has no keyword is never matched. */
  lemma {:induction false} UnmatchedName(table: seq<(string, seq<string>)>, text: string, c: string)
    requires forall i :: 0 <= i < |table| && table[i].0 == c ==> table[i].1 == []
    ensures c !in Matching(table, text)
    decreases |table|
  {
    if table != [] {
      forall i | 0 <= i < |table[1..]| && table[1..][i].0 == c ensures table[1..][i].1 == [] {
        assert table[1..][i] == table[i + 1];
      }
      UnmatchedName(table[1..], text, c);
    }
  }

  /** Names that start with different letters are different. */
  lemma DistinctByInitials(names: seq<string>, initials: string)
    requires |names| == |initials|
    requires forall i :: 0 <= i < |names| ==> names[i] != [] && names[i][0] == initials[i]
    requires forall i, j :: 0 <= i < j < |initials| ==> initials[i] != initials[j]
    ensures forall i, j :: 0 <= i < j < |names| ==> names[i] != names[j]
  {
    forall i, j | 0 <= i < j < |names| ensures names[i] != names[j] {
      assert names[i][0] != names[j][0];
    }
  }

  lemma InitialsDistinct()
    ensures forall i, j :: 0 <= i < j < |Initials| ==> Initials[i] != Initials[j]
  {
  }

  /** No category is listed twice: the table names each category once. */
  lemma CategoriesDistinct(text: string)
    ensures forall i, j :: 0 <= i < j < |Categories(Keywords, text)| ==>
              Categories(Keywords, text)[i] != Categories(Keywords, text)[j]
  {
    MatchingSpec(Keywords, text);
    NamesDistinct();
    DistinctSubsequence(Matching(Keywords, text), Names(Keywords));
  }

  /** The table names each category once. */
  lemma NamesDistinct()
    ensures forall i, j :: 0 <= i < j < |Names(Keywords)| ==> Names(Keywords)[i] != Names(Keywords)[j]
  {
    NameInitials();
    InitialsDistinct();
    DistinctByInitials(Names(Keywords), Initials);
  }

  /** A subsequence of a list without repeats has no repeats. */
  lemma {:induction false} DistinctSubsequence(r: seq<string>, s: seq<string>)
    requires IsSubsequence(r, s)
    requires forall i, j :: 0 <= i < j < |s| ==> s[i] != s[j]
    ensures forall i, j :: 0 <= i < j < |r| ==> r[i] != r[j]
    decreases |s|
  {
    if r != [] && s != [] {
      if r[0] == s[0] {
        DistinctSubsequence(r[1..], s[1..]);
        SubsequenceMembers(r[1..], s[1..]);
        forall j | 0 < j < |r| ensures r[0] != r[j] {
          assert r[j] == r[1..][j - 1];
          assert r[j] in s[1..];
        }
      } else {
        DistinctSubsequence(r, s[1..]);
      }
    }
  }

  lemma {:induction false} SubsequenceMembers(r: seq<string>, s: seq<string>)
    requires IsSubsequence(r, s)
    ensures forall x :: x in r ==> x in s
    decreases |s|
  {
    if r != [] && s != [] {
      if r[0] == s[0] {
        SubsequenceMembers(r[1..], s[1..]);
        assert forall x :: x in r ==> x == r[0] || x in r[1..];
      } else {
        SubsequenceMembers(r, s[1..]);
      }
    }
  }
}
