/** Parsing of chat commands and the `!lang` catalog listing. */
module Commands {

  /** The parts joined back with single spaces (`strings.Join(parts, " ")`). */
  function Join(parts: seq<string>): string
    requires |parts| >= 1
  {
    if |parts| == 1 then parts[0] else parts[0] + " " + Join(parts[1..])
  }

  /** `strings.Split(s, " ")`: the pieces of `s` between single spaces, empty
      pieces included; the empty string gives one empty piece. */
  function Split(s: string): (parts: seq<string>)
    ensures |parts| >= 1
    ensures forall i :: 0 <= i < |parts| ==> ' ' !in parts[i]
    ensures Join(parts) == s
  {
    if s == [] then [""]
    else
      var rest := Split(s[1..]);
      if s[0] == ' ' then
        assert ([""] + rest)[1..] == rest;
        [""] + rest
      else
        var parts := [[s[0]] + rest[0]] + rest[1..];
        assert parts[1..] == rest[1..];
        assert s == [s[0]] + s[1..];
        parts
  }

  /** Split is the only way to cut a string into space-free pieces that join
      back to it. */
  lemma {:induction false} SplitUnique(s: string, parts: seq<string>)
    requires |parts| >= 1
    requires forall i :: 0 <= i < |parts| ==> ' ' !in parts[i]
    requires Join(parts) == s
    ensures Split(s) == parts
    decreases |s|
  {
    if parts[0] == "" {
      if |parts| == 1 {
        assert s == "";
      } else {
        assert s == " " + Join(parts[1..]);
        assert s[1..] == Join(parts[1..]);
        SplitUnique(s[1..], parts[1..]);
        assert Split(s) == [""] + parts[1..];
      }
    } else {
      var q := parts[0][1..];
      var parts' := [q] + parts[1..];
      assert parts'[1..] == parts[1..];
      assert parts[0] == [parts[0][0]] + q;
      assert ' ' !in q by {
        forall k | 0 <= k < |q| ensures q[k] != ' ' { assert q[k] == parts[0][k + 1]; }
      }
      assert forall i :: 0 <= i < |parts'| ==> ' ' !in parts'[i] by {
        forall i | 0 <= i < |parts'| ensures ' ' !in parts'[i] {
          if i > 0 { assert parts'[i] == parts[i]; }
        }
      }
      if |parts| == 1 {
        assert s == [parts[0][0]] + Join(parts');
      } else {
        assert s == [parts[0][0]] + (q + " " + Join(parts[1..]));
        assert s == [parts[0][0]] + Join(parts');
      }
      assert s[0] == parts[0][0] && s[1..] == Join(parts');
      SplitUnique(s[1..], parts');
      assert Split(s) == [[s[0]] + q] + parts[1..];
    }
  }

  /** The one command the daemon understands. */
  const LangCommand: string := "!lang"

  /** What a message body asks for: nothing, or `!lang` with a code, where the
      empty code asks for the catalog listing. */
  datatype Command = NoCommand | Lang(code: string)

  /** The dispatch of `handleMessage`: the body is split on single spaces;
      a first piece `!lang` with exactly one more piece selects that piece as
      the code, `!lang` with any other number of pieces selects the empty code. */
  function Parse(body: string): Command
  {
    var sects := Split(body);
    if sects[0] == LangCommand then
      if |sects| == 2 then Lang(sects[1]) else Lang("")
    else NoCommand
  }

  /** The first piece of the split is `!lang` exactly when the body is `!lang`
      or starts with `!lang ` (helper for the three Parse lemmas). */
  lemma {:induction false} SplitHead(body: string)
    ensures Split(body)[0] == LangCommand <==> body == LangCommand || LangCommand + " " <= body
    ensures LangCommand + " " <= body ==> Split(body) == [LangCommand] + Split(body[6..])
    ensures body == LangCommand ==> Split(body) == [LangCommand]
  {
    if body == LangCommand {
      SplitUnique(body, [LangCommand]);
    }
    if LangCommand + " " <= body {
      var t := body[6..];
      var rest := Split(t);
      var parts := [LangCommand] + rest;
      assert parts[1..] == rest;
      assert body == LangCommand + " " + t;
      assert forall i :: 0 <= i < |parts| ==> ' ' !in parts[i] by {
        forall i | 0 <= i < |parts| ensures ' ' !in parts[i] {
          if i > 0 { assert parts[i] == rest[i - 1]; }
        }
      }
      SplitUnique(body, parts);
    }
    var sects := Split(body);
    if sects[0] == LangCommand {
      if |sects| == 1 {
        assert body == LangCommand;
      } else {
        assert body == LangCommand + " " + Join(sects[1..]);
        assert (LangCommand + " ") + Join(sects[1..]) == LangCommand + " " + Join(sects[1..]);
      }
    }
  }

  /** Parse ignores a body exactly when it neither is `!lang` nor starts with
      `!lang `. */
  lemma ParseNoCommandIff(body: string)
    ensures Parse(body) == NoCommand <==> !(body == LangCommand || LangCommand + " " <= body)
  {
    SplitHead(body);
  }

  /** Parse selects a non-empty code exactly for `!lang <code>` with a code that
      holds no space. */
  lemma ParseCodeIff(body: string, code: string)
    requires code != ""
    ensures Parse(body) == Lang(code) <==> body == LangCommand + " " + code && ' ' !in code
  {
    SplitHead(body);
    if body == LangCommand + " " + code && ' ' !in code {
      assert body[6..] == code;
      SplitUnique(code, [code]);
    }
    if Parse(body) == Lang(code) {
      var sects := Split(body);
      assert |sects| == 2 && sects[1] == code;
      assert Join(sects) == LangCommand + " " + code;
    }
  }

  /** Parse selects the empty code (the listing) exactly for `!lang`, for
      `!lang ` and for `!lang ` followed by text that holds another space. */
  lemma ParseListingIff(body: string)
    ensures Parse(body) == Lang("") <==>
              body == LangCommand ||
              (LangCommand + " " <= body && (|body| == 6 || ' ' in body[6..]))
  {
    SplitHead(body);
    if LangCommand + " " <= body {
      var t := body[6..];
      var rest := Split(t);
      assert Split(body) == [LangCommand] + rest;
      if |body| == 6 {
        assert t == "";
        SplitUnique(t, [""]);
      } else if ' ' !in t {
        SplitUnique(t, [t]);
      }
    }
  }

  /** True when `hay` holds `needle` starting at offset `k`. */
  predicate OccursAt(hay: string, needle: string, k: int)
  {
    0 <= k && k + |needle| <= |hay| && hay[k..k + |needle|] == needle
  }

  /** True when `hay` holds `needle` as a contiguous piece. */
  ghost predicate Contains(hay: string, needle: string)
  {
    exists k :: OccursAt(hay, needle, k)
  }

  /** The first line of the `!lang` listing. */
  const UsageHint: string := "!lang <lang>\n"

  /** One line of the listing: `code: name`. */
  function ListingLine(code: string, name: string): string
  {
    code + ": " + name + "\n"
  }

  /** `order` enumerates the keys of `m` once each: an iteration order of a
      Go map. */
  ghost predicate IsIterationOrder<V>(order: seq<string>, m: map<string, V>)
  {
    && (forall i, j :: 0 <= i < j < |order| ==> order[i] != order[j])
    && (forall c :: c in m <==> c in order)
  }

  /** The listing text accumulated over the catalog codes in `order`. */
  function Listing(order: seq<string>, catalog: map<string, string>): (list: string)
    requires forall c :: c in order ==> c in catalog
    ensures UsageHint <= list
  {
    if order == [] then UsageHint
    else
      var last := order[|order| - 1];
      Listing(order[..|order| - 1], catalog) + ListingLine(last, catalog[last])
  }

  /** The lines of the codes in `order`, concatenated front to back. */
  function Lines(order: seq<string>, catalog: map<string, string>): string
    requires forall c :: c in order ==> c in catalog
  {
    if order == [] then "" else ListingLine(order[0], catalog[order[0]]) + Lines(order[1..], catalog)
  }

  /** Appending a code to the order appends its line (helper for
      ListingShape). */
  lemma {:induction false} LinesSnoc(order: seq<string>, c: string, catalog: map<string, string>)
    requires forall k :: k in order ==> k in catalog
    requires c in catalog
    ensures Lines(order + [c], catalog) == Lines(order, catalog) + ListingLine(c, catalog[c])
  {
    if order != [] {
      assert (order + [c])[1..] == order[1..] + [c];
      assert (order + [c])[0] == order[0];
      LinesSnoc(order[1..], c, catalog);
    } else {
      assert ([] + [c])[1..] == [];
    }
  }

  /** The listing is the usage hint followed by exactly the lines of the codes
      in `order`, one per code, and nothing else. */
  lemma {:induction false} ListingShape(order: seq<string>, catalog: map<string, string>)
    requires forall c :: c in order ==> c in catalog
    ensures Listing(order, catalog) == UsageHint + Lines(order, catalog)
  {
    if order != [] {
      var init := order[..|order| - 1];
      var last := order[|order| - 1];
      ListingShape(init, catalog);
      assert init + [last] == order;
      LinesSnoc(init, last, catalog);
    }
  }

  /** A duplicate-free sequence has as many distinct elements as entries. */
  lemma {:induction false} DistinctCount(order: seq<string>)
    requires forall i, j :: 0 <= i < j < |order| ==> order[i] != order[j]
    ensures |set c | c in order| == |order|
  {
    if order != [] {
      var init := order[..|order| - 1];
      var last := order[|order| - 1];
      DistinctCount(init);
      assert last !in init;
      assert (set c | c in order) == (set c | c in init) + {last};
    }
  }

  /** An iteration order of a map has one entry per key. */
  lemma IterationOrderLength<V>(order: seq<string>, m: map<string, V>)
    requires IsIterationOrder(order, m)
    ensures |order| == |m.Keys|
  {
    DistinctCount(order);
    assert m.Keys == set c | c in order;
  }

  /** The listing of a prefix of the order is a prefix of the whole listing. */
  lemma {:induction false} ListingPrefix(order: seq<string>, catalog: map<string, string>, j: nat)
    requires forall c :: c in order ==> c in catalog
    requires j <= |order|
    ensures Listing(order[..j], catalog) <= Listing(order, catalog)
    decreases |order|
  {
    if j < |order| {
      var init := order[..|order| - 1];
      assert init[..j] == order[..j];
      ListingPrefix(init, catalog, j);
    } else {
      assert order[..j] == order;
    }
  }

  /** The line of the `i`-th code of the order sits in the listing right after
      the listing of the codes before it. */
  lemma ListingLineAt(order: seq<string>, catalog: map<string, string>, i: nat)
    requires forall c :: c in order ==> c in catalog
    requires i < |order|
    ensures OccursAt(Listing(order, catalog), ListingLine(order[i], catalog[order[i]]),
                     |Listing(order[..i], catalog)|)
  {
    var before := Listing(order[..i], catalog);
    var line := ListingLine(order[i], catalog[order[i]]);
    ListingPrefix(order, catalog, i + 1);
    assert order[..i + 1][..i] == order[..i];
    assert Listing(order[..i + 1], catalog) == before + line;
  }

  /** The listing is the usage hint followed by one `code: name` line per
      catalog code, each code once, and holds the line of every catalog
      code. */
  lemma ListingComplete(order: seq<string>, catalog: map<string, string>)
    requires IsIterationOrder(order, catalog)
    ensures Listing(order, catalog) == UsageHint + Lines(order, catalog)
    ensures |order| == |catalog.Keys|
    ensures forall c :: c in catalog ==> Contains(Listing(order, catalog), ListingLine(c, catalog[c]))
  {
    ListingShape(order, catalog);
    IterationOrderLength(order, catalog);
    forall c | c in catalog
      ensures Contains(Listing(order, catalog), ListingLine(c, catalog[c]))
    {
      var i :| 0 <= i < |order| && order[i] == c;
      ListingLineAt(order, catalog, i);
    }
  }

  /** The loop of `commandLang` that builds the listing. */
  method BuildListing(catalog: map<string, string>, order: seq<string>) returns (list: string)
    requires IsIterationOrder(order, catalog)
    ensures list == Listing(order, catalog)
  {
    list := UsageHint;
    var i := 0;
    while i < |order|
      invariant 0 <= i <= |order|
      invariant list == Listing(order[..i], catalog)
    {
      var c := order[i];
      assert order[..i + 1][..i] == order[..i];
      list := list + ListingLine(c, catalog[c]);
      i := i + 1;
    }
    assert order[..i] == order;
  }
}
