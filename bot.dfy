/** The update handler of the transliteration bot (receive_update in main.py):
  * one text message in, one reply out, with the user's override dictionary
  * custom_map as the only state. */
module Bot {
  import opened Seqs
  import opened Text

  /** The branch receive_update takes for a stripped, non-empty text. */
  datatype Command = Start | Add | Edit | Delete | List | Translit | Lookup

  /** The elif chain of receive_update, tried top to bottom. */
  function Classify(text: string): (c: Command)
    ensures c != Lookup ==> |text| >= |"/list"| && text[0] == '/'
  {
    if StartsWith(text, "/start") then Start
    else if StartsWith(text, "/add ") then Add
    else if StartsWith(text, "/edit ") then Edit
    else if StartsWith(text, "/delete ") then Delete
    else if StartsWith(text, "/list") then List
    else if StartsWith(text, "/translit ") then Translit
    else Lookup
  }

  /** The branches that may change the dictionary. */
  predicate Mutates(c: Command) {
    c.Add? || c.Edit? || c.Delete?
  }

  /** No command prefix is a prefix of another, so the order of the chain never
    * decides anything: a text takes a branch exactly when it has its prefix. */
  lemma ClassifyByPrefix(text: string)
    ensures Classify(text) == Start <==> StartsWith(text, "/start")
    ensures Classify(text) == Add <==> StartsWith(text, "/add ")
    ensures Classify(text) == Edit <==> StartsWith(text, "/edit ")
    ensures Classify(text) == Delete <==> StartsWith(text, "/delete ")
    ensures Classify(text) == List <==> StartsWith(text, "/list")
    ensures Classify(text) == Translit <==> StartsWith(text, "/translit ")
  {
    if |text| >= 2 {
      var c := text[1];
      assert StartsWith(text, "/start") ==> c == 's';
      assert StartsWith(text, "/add ") ==> c == 'a';
      assert StartsWith(text, "/edit ") ==> c == 'e';
      assert StartsWith(text, "/delete ") ==> c == 'd';
      assert StartsWith(text, "/list") ==> c == 'l';
      assert StartsWith(text, "/translit ") ==> c == 't';
      assert StartsWith(text, "/start") ==> text[2] == 't';
      assert StartsWith(text, "/translit ") ==> text[2] == 'r';
    }
  }

  /** Which format hint a malformed command gets. */
  datatype Usage = AddUsage | EditUsage | DeleteUsage

  /** Where a transliteration came from. */
  datatype Source = Dictionary | Automatic

  /** What receive_update answers; Silent is the "No text" return that sends nothing. */
  datatype Reply =
    | Silent
    | Help
    | FormatError(usage: Usage)
    | Added(word: string, translit: string)
    | Edited(word: string, translit: string)
    | Deleted(word: string)
    | NotInDictionary(word: string)
    | EmptyDictionary
    | Listing(entries: seq<(string, string)>)
    | Transliterated(input: string, output: string)
    | Looked(text: string, translit: string, source: Source)

  /** The replies after which save_dict has run. */
  predicate Saves(r: Reply) {
    r.Added? || r.Edited? || r.Deleted?
  }

  datatype Resolution = Resolution(translit: string, source: Source)

  /** One word or text: the dictionary entry under its lower-cased form wins over
    * the automatic transliteration of the text as typed. */
  function Resolve(dict: map<string, string>, lower: string -> string,
                   transliterate: string -> string, word: string): (r: Resolution)
    ensures r.source == Dictionary <==> lower(word) in dict
    ensures r.source == Dictionary ==> r.translit == dict[lower(word)]
    ensures r.source == Automatic ==> r.translit == transliterate(word)
  {
    var key := lower(word);
    if key in dict then Resolution(dict[key], Dictionary)
    else Resolution(transliterate(word), Automatic)
  }

  /** The list result_words that the /translit loop builds for the given words. */
  function Segments(dict: map<string, string>, lower: string -> string,
                    transliterate: string -> string, words: seq<string>): (segs: seq<string>)
    ensures |segs| == |words|
    ensures forall i :: 0 <= i < |words| && lower(words[i]) in dict ==>
      segs[i] == dict[lower(words[i])]
    ensures forall i :: 0 <= i < |words| && lower(words[i]) !in dict ==>
      segs[i] == transliterate(words[i])
  {
    seq(|words|, i requires 0 <= i < |words| => Resolve(dict, lower, transliterate, words[i]).translit)
  }

  /** The /translit loop: one segment per word, in order, the dictionary first. */
  method TranslitWords(dict: map<string, string>, lower: string -> string,
                       transliterate: string -> string, words: seq<string>)
    returns (segs: seq<string>)
    ensures |segs| == |words|
    ensures forall i :: 0 <= i < |words| && lower(words[i]) in dict ==>
      segs[i] == dict[lower(words[i])]
    ensures forall i :: 0 <= i < |words| && lower(words[i]) !in dict ==>
      segs[i] == transliterate(words[i])
  {
    segs := [];
    for i := 0 to |words|
      invariant |segs| == i
      invariant forall j :: 0 <= j < i ==> segs[j] == Resolve(dict, lower, transliterate, words[j]).translit
    {
      var lw := lower(words[i]);
      if lw in dict {
        segs := segs + [dict[lw]];
      } else {
        segs := segs + [transliterate(words[i])];
      }
    }
  }

  /** custom_map.items() in the dict's insertion order. */
  function Items(dict: map<string, string>, order: seq<string>): (items: seq<(string, string)>)
    requires forall k :: k in order ==> k in dict
    ensures |items| == |order|
    ensures forall i :: 0 <= i < |items| ==>
      items[i].0 == order[i] && items[i].0 in dict && items[i].1 == dict[items[i].0]
  {
    seq(|order|, i requires 0 <= i < |order| => (order[i], dict[order[i]]))
  }

  /** The listing holds every entry of the dictionary once and nothing else. */
  lemma ItemsExact(dict: map<string, string>, order: seq<string>)
    requires Distinct(order) && forall k :: k in order <==> k in dict
    ensures |Items(dict, order)| == |dict|
    ensures forall k :: k in dict ==> (k, dict[k]) in Items(dict, order)
    ensures forall e :: e in Items(dict, order) ==> e.0 in dict && dict[e.0] == e.1
  {
    DistinctCard(order);
    assert dict.Keys == set k | k in order;
    var items := Items(dict, order);
    forall k | k in dict ensures (k, dict[k]) in items {
      var i := IndexOf(order, k);
      assert items[i] == (k, dict[k]);
    }
  }

  /** A new key is listed last. */
  lemma ItemsAppend(dict: map<string, string>, order: seq<string>, k: string, v: string)
    requires forall j :: j in order ==> j in dict
    requires k !in order
    ensures Items(dict[k := v], order + [k]) == Items(dict, order) + [(k, v)]
  {
  }

  /** Overwriting a key keeps its place in the listing. */
  lemma ItemsOverwrite(dict: map<string, string>, order: seq<string>, k: string, v: string)
    requires Distinct(order) && forall j :: j in order ==> j in dict
    requires k in order
    ensures Items(dict[k := v], order) == Items(dict, order)[IndexOf(order, k) := (k, v)]
  {
  }

  /** Deleting a key closes the gap and keeps the others in order. */
  lemma ItemsRemove(dict: map<string, string>, order: seq<string>, k: string)
    requires Distinct(order) && forall j :: j in order <==> j in dict
    requires k in order
    ensures forall j :: j in Without(order, k) ==> j in dict - {k}
    ensures Items(dict - {k}, Without(order, k))
         == Items(dict, order)[..IndexOf(order, k)] + Items(dict, order)[IndexOf(order, k) + 1..]
  {
    WithoutRemoves(order, k);
  }

  /** The bot: the dictionary custom_map (its contents and its insertion order),
    * str.lower and transliterate as given functions, and the log of what
    * save_dict has written. */
  class TranslitBot {
    var dict: map<string, string>
    var order: seq<string>
    const lower: string -> string
    const transliterate: string -> string
    ghost var saved: seq<seq<(string, string)>>

    /** The key order lists every key of the dictionary exactly once. */
    ghost predicate Valid()
      reads this
    {
      Distinct(order) && forall k :: k in order <==> k in dict
    }

    constructor (lower: string -> string, transliterate: string -> string)
      ensures Valid()
      ensures dict == map[] && order == [] && saved == []
      ensures this.lower == lower && this.transliterate == transliterate
    {
      this.lower := lower;
      this.transliterate := transliterate;
      dict := map[];
      order := [];
      saved := [];
    }

    /** save_dict: the file now holds the dictionary's entries in order. */
    ghost method Save()
      requires Valid()
      modifies this`saved
      ensures saved == old(saved) + [Items(dict, order)]
    {
      saved := saved + [Items(dict, order)];
    }

    /** The /add branch: upsert lower(word) -> lower(translit). */
    method AddEntry(parts: seq<string>) returns (reply: Reply)
      requires Valid()
      modifies this
      ensures Valid()
      ensures |parts| != 3 ==> reply == FormatError(AddUsage) && unchanged(this)
      ensures |parts| == 3 ==>
        var k, v := lower(parts[1]), lower(parts[2]);
        && reply == Added(k, v)
        && dict == old(dict)[k := v]
        && order == (if k in old(dict) then old(order) else old(order) + [k])
        && saved == old(saved) + [Items(dict, order)]
    {
      if |parts| != 3 {
        reply := FormatError(AddUsage);
      } else {
        var orig, trans := lower(parts[1]), lower(parts[2]);
        if orig !in dict {
          order := order + [orig];
        }
        dict := dict[orig := trans];
        Save();
        reply := Added(orig, trans);
      }
    }

    /** The /edit branch: change the value of a key that is already there. */
    method EditEntry(parts: seq<string>) returns (reply: Reply)
      requires Valid()
      modifies this
      ensures Valid()
      ensures |parts| != 3 ==> reply == FormatError(EditUsage) && unchanged(this)
      ensures |parts| == 3 && lower(parts[1]) !in old(dict) ==>
        reply == NotInDictionary(lower(parts[1])) && unchanged(this)
      ensures |parts| == 3 && lower(parts[1]) in old(dict) ==>
        var k, v := lower(parts[1]), lower(parts[2]);
        && reply == Edited(k, v)
        && dict == old(dict)[k := v]
        && dict.Keys == old(dict).Keys
        && order == old(order)
        && saved == old(saved) + [Items(dict, order)]
    {
      if |parts| != 3 {
        reply := FormatError(EditUsage);
      } else {
        var orig, trans := lower(parts[1]), lower(parts[2]);
        if orig in dict {
          dict := dict[orig := trans];
          Save();
          reply := Edited(orig, trans);
        } else {
          reply := NotInDictionary(orig);
        }
      }
    }

    /** The /delete branch: remove a key that is there. */
    method DeleteEntry(parts: seq<string>) returns (reply: Reply)
      requires Valid()
      modifies this
      ensures Valid()
      ensures |parts| != 2 ==> reply == FormatError(DeleteUsage) && unchanged(this)
      ensures |parts| == 2 && lower(parts[1]) !in old(dict) ==>
        reply == NotInDictionary(lower(parts[1])) && unchanged(this)
      ensures |parts| == 2 && lower(parts[1]) in old(dict) ==>
        var k := lower(parts[1]);
        && reply == Deleted(k)
        && dict == old(dict) - {k}
        && order == Without(old(order), k)
        && saved == old(saved) + [Items(dict, order)]
    {
      if |parts| != 2 {
        reply := FormatError(DeleteUsage);
      } else {
        var orig := lower(parts[1]);
        if orig in dict {
          WithoutRemoves(order, orig);
          dict := dict - {orig};
          order := Without(order, orig);
          Save();
          reply := Deleted(orig);
        } else {
          reply := NotInDictionary(orig);
        }
      }
    }

    /** The read-only branches of receive_update: /start, /list, /translit and
      * the plain-text lookup. */
    method Respond(text: string) returns (reply: Reply)
      requires Valid()
      requires !Mutates(Classify(text))
      ensures Classify(text) == Start ==> reply == Help
      ensures Classify(text) == List ==>
        reply == if dict == map[] then EmptyDictionary else Listing(Items(dict, order))
      ensures Classify(text) == Translit ==>
        var rest := text[|"/translit "|..];
        reply == Transliterated(rest, Join(Segments(dict, lower, transliterate, Words(rest)), "_"))
      ensures Classify(text) == Lookup && lower(text) in dict ==>
        reply == Looked(text, dict[lower(text)], Dictionary)
      ensures Classify(text) == Lookup && lower(text) !in dict ==>
        reply == Looked(text, transliterate(text), Automatic)
    {
      match Classify(text)
      case Start =>
        reply := Help;
      case List =>
        if dict != map[] {
          reply := Listing(Items(dict, order));
        } else {
          reply := EmptyDictionary;
        }
      case Translit =>
        var rest := text[|"/translit "|..];
        var words := Words(rest);
        var segs := TranslitWords(dict, lower, transliterate, words);
        assert segs == Segments(dict, lower, transliterate, words);
        reply := Transliterated(rest, Join(segs, "_"));
      case Lookup =>
        var r := Resolve(dict, lower, transliterate, text);
        reply := Looked(text, r.translit, r.source);
    }

    /** The dictionary commands of receive_update: /add, /edit and /delete,
      * each given the text cut by text.split(maxsplit=2). */
    method Mutate(text: string) returns (reply: Reply)
      requires Valid()
      requires Mutates(Classify(text))
      modifies this
      ensures Valid()
      ensures !Saves(reply) ==> unchanged(this)
      ensures Saves(reply) ==> saved == old(saved) + [Items(dict, order)]
      ensures var parts := SplitMax(text, 2);
        Classify(text) == Add ==>
          if |parts| != 3 then reply == FormatError(AddUsage)
          else
            var k, v := lower(parts[1]), lower(parts[2]);
            && reply == Added(k, v)
            && dict == old(dict)[k := v]
            && order == (if k in old(dict) then old(order) else old(order) + [k])
      ensures var parts := SplitMax(text, 2);
        Classify(text) == Edit ==>
          if |parts| != 3 then reply == FormatError(EditUsage)
          else
            var k, v := lower(parts[1]), lower(parts[2]);
            if k in old(dict) then
              && reply == Edited(k, v)
              && dict == old(dict)[k := v]
              && dict.Keys == old(dict).Keys
              && order == old(order)
            else reply == NotInDictionary(k)
      ensures var parts := SplitMax(text, 2);
        Classify(text) == Delete ==>
          if |parts| != 2 then reply == FormatError(DeleteUsage)
          else
            var k := lower(parts[1]);
            if k in old(dict) then
              && reply == Deleted(k)
              && dict == old(dict) - {k}
              && order == Without(old(order), k)
            else reply == NotInDictionary(k)
    {
      var parts := SplitMax(text, 2);
      match Classify(text)
      case Add =>
        reply := AddEntry(parts);
      case Edit =>
        reply := EditEntry(parts);
      case Delete =>
        reply := DeleteEntry(parts);
    }

    /** receive_update for the text of one message. */
    method Handle(message: string) returns (reply: Reply)
      requires Valid()
      modifies this
      ensures Valid()
      // the read-only split: only a successful /add, /edit or /delete changes anything
      ensures !Saves(reply) ==> unchanged(this)
      ensures Saves(reply) ==> saved == old(saved) + [Items(dict, order)]
      ensures Saves(reply) ==> Mutates(Classify(Strip(message)))
      // empty text: no reply at all
      ensures Strip(message) == [] ==> reply == Silent
      ensures var text := Strip(message);
        text != [] && Classify(text) == Start ==> reply == Help
      ensures var text := Strip(message); var parts := SplitMax(text, 2);
        text != [] && Classify(text) == Add ==>
          if |parts| != 3 then reply == FormatError(AddUsage)
          else
            var k, v := lower(parts[1]), lower(parts[2]);
            && reply == Added(k, v)
            && dict == old(dict)[k := v]
            && order == (if k in old(dict) then old(order) else old(order) + [k])
      ensures var text := Strip(message); var parts := SplitMax(text, 2);
        text != [] && Classify(text) == Edit ==>
          if |parts| != 3 then reply == FormatError(EditUsage)
          else
            var k, v := lower(parts[1]), lower(parts[2]);
            if k in old(dict) then
              && reply == Edited(k, v)
              && dict == old(dict)[k := v]
              && dict.Keys == old(dict).Keys
              && order == old(order)
            else reply == NotInDictionary(k)
      ensures var text := Strip(message); var parts := SplitMax(text, 2);
        text != [] && Classify(text) == Delete ==>
          if |parts| != 2 then reply == FormatError(DeleteUsage)
          else
            var k := lower(parts[1]);
            if k in old(dict) then
              && reply == Deleted(k)
              && dict == old(dict) - {k}
              && order == Without(old(order), k)
            else reply == NotInDictionary(k)
      ensures var text := Strip(message);
        text != [] && Classify(text) == List ==>
          reply == if old(dict) == map[] then EmptyDictionary
                   else Listing(Items(old(dict), old(order)))
      ensures var text := Strip(message);
        text != [] && Classify(text) == Translit ==>
          var rest := text[|"/translit "|..];
          reply == Transliterated(rest, Join(Segments(old(dict), lower, transliterate, Words(rest)), "_"))
      ensures var text := Strip(message);
        text != [] && Classify(text) == Lookup ==>
          if lower(text) in old(dict) then reply == Looked(text, old(dict)[lower(text)], Dictionary)
          else reply == Looked(text, transliterate(text), Automatic)
    {
      var text := Strip(message);
      if text == [] {
        return Silent;
      }
      if Mutates(Classify(text)) {
        reply := Mutate(text);
      } else {
        reply := Respond(text);
      }
    }
  }

  /** A word the user can send back on its own: one piece with no whitespace that
    * does not start with "/start" or "/list" (the other prefixes contain a space). */
  predicate PlainWord(w: string) {
    w != [] && NoSpace(w) && !StartsWith(w, "/start") && !StartsWith(w, "/list")
  }

  /** A transliteration as it can follow the word: non-empty, with no whitespace
    * at either end (inner whitespace is kept by split(maxsplit=2)). */
  predicate Phrase(t: string) {
    t != [] && !IsSpace(t[0]) && !IsSpace(t[|t| - 1])
  }

  /** A plain word takes the lookup branch unchanged by strip(). */
  lemma PlainWordIsLookup(w: string)
    requires PlainWord(w)
    ensures Strip(w) == w
    ensures Classify(w) == Lookup
  {
    StripUnchanged(w);
    ClassifyByPrefix(w);
    assert !StartsWith(w, "/add ") by {
      if |w| >= 5 { assert !IsSpace(w[4]); }
    }
    assert !StartsWith(w, "/edit ") by {
      if |w| >= 6 { assert !IsSpace(w[5]); }
    }
    assert !StartsWith(w, "/delete ") by {
      if |w| >= 8 { assert !IsSpace(w[7]); }
    }
    assert !StartsWith(w, "/translit ") by {
      if |w| >= 10 { assert !IsSpace(w[9]); }
    }
  }

  /** "/add w t" is taken apart into exactly the command, w and t. */
  lemma AddMessageParses(w: string, t: string)
    requires w != [] && NoSpace(w) && Phrase(t)
    ensures Strip("/add " + w + " " + t) == "/add " + w + " " + t
    ensures Classify("/add " + w + " " + t) == Add
    ensures SplitMax("/add " + w + " " + t, 2) == ["/add", w, t]
  {
    var m := "/add " + w + " " + t;
    AddLine(w, t);
    StripUnchanged(m);
    PrefixOf("/add ", w + " " + t);
    ClassifyByPrefix(m);
    SplitThree("/add", w, t);
  }

  lemma AddLine(w: string, t: string)
    ensures "/add " + w + " " + t == "/add" + " " + w + " " + t
    ensures "/add " + w + " " + t == "/add " + (w + " " + t)
    ensures ("/add " + w + " " + t)[0] == '/'
    ensures ("/add " + w + " " + t)[|"/add " + w + " " + t| - 1] == (" " + t)[|t|]
  {
  }

  /** "/delete w" is taken apart into exactly the command and w. */
  lemma DeleteMessageParses(w: string)
    requires w != [] && NoSpace(w)
    ensures Strip("/delete " + w) == "/delete " + w
    ensures Classify("/delete " + w) == Delete
    ensures SplitMax("/delete " + w, 2) == ["/delete", w]
  {
    var m := "/delete " + w;
    DeleteLine(w);
    StripUnchanged(m);
    PrefixOf("/delete ", w);
    ClassifyByPrefix(m);
    SplitTwo("/delete", w);
  }

  lemma DeleteLine(w: string)
    requires w != []
    ensures "/delete " + w == "/delete" + " " + w
    ensures ("/delete " + w)[0] == '/'
    ensures ("/delete " + w)[|"/delete " + w| - 1] == w[|w| - 1]
  {
  }

  /** A stripped /translit command always has at least one word to transliterate. */
  lemma TranslitHasWords(text: string)
    requires Strip(text) == text
    requires Classify(text) == Translit
    ensures Words(text[|"/translit "|..]) != []
  {
    ClassifyByPrefix(text);
    var rest := text[10..];
    assert text[9] == ' ';
    assert |text| > 10;
    assert rest[|rest| - 1] == text[|text| - 1];
    WordsEmptyIff(rest);
  }

  /** When no segment contains "_", the segments of a /translit reply can be read
    * back off its output by splitting on "_". */
  lemma TranslitOutputSplits(dict: map<string, string>, lower: string -> string,
                             transliterate: string -> string, text: string)
    requires Strip(text) == text && Classify(text) == Translit
    requires var segs := Segments(dict, lower, transliterate, Words(text[|"/translit "|..]));
      forall i :: 0 <= i < |segs| ==> '_' !in segs[i]
    ensures var segs := Segments(dict, lower, transliterate, Words(text[|"/translit "|..]));
      SplitOn(Join(segs, "_"), '_') == segs
  {
    TranslitHasWords(text);
    var segs := Segments(dict, lower, transliterate, Words(text[|"/translit "|..]));
    SplitOnJoin(segs, '_');
  }

  /** A segment holding "_" makes the output ambiguous: "/add a x_y" followed by
    * "/translit a" prints the same output as two segments "x" and "y". */
  lemma JoinAmbiguous()
    ensures Join(["x_y"], "_") == Join(["x", "y"], "_")
    ensures SplitOn(Join(["x_y"], "_"), '_') != ["x_y"]
  {
    assert Join(["x", "y"], "_") == "x" + "_" + "y";
    assert "x_y"[1] == '_';
    assert SplitOn("x_y", '_')[0] == "x" by { Seqs.IndexOfAt("x_y", '_', 1); }
  }

  lemma UpdateThenRemove(m: map<string, string>, k: string, v: string)
    ensures m[k := v] - {k} == m - {k}
  {
  }

  /** After "/add w t", sending w answers lower(t) from the dictionary. */
  method AddThenSend(bot: TranslitBot, w: string, t: string) returns (added: Reply, looked: Reply)
    requires bot.Valid()
    requires PlainWord(w) && Phrase(t)
    modifies bot
    ensures bot.Valid()
    ensures added == Added(bot.lower(w), bot.lower(t))
    ensures looked == Looked(w, bot.lower(t), Dictionary)
    ensures bot.dict == old(bot.dict)[bot.lower(w) := bot.lower(t)]
  {
    AddMessageParses(w, t);
    added := bot.Handle("/add " + w + " " + t);
    PlainWordIsLookup(w);
    looked := bot.Handle(w);
  }

  /** "/add w t" then "/delete w" leaves the dictionary without lower(w), and w is
    * transliterated automatically again. */
  method AddThenDelete(bot: TranslitBot, w: string, t: string) returns (looked: Reply)
    requires bot.Valid()
    requires PlainWord(w) && Phrase(t)
    modifies bot
    ensures bot.Valid()
    ensures bot.dict == old(bot.dict) - {bot.lower(w)}
    ensures looked == Looked(w, bot.transliterate(w), Automatic)
  {
    ghost var before := bot.dict;
    var k := bot.lower(w);
    AddMessageParses(w, t);
    var added := bot.Handle("/add " + w + " " + t);
    assert bot.dict == before[k := bot.lower(t)];
    ghost var between := bot.dict;
    DeleteMessageParses(w);
    var deleted := bot.Handle("/delete " + w);
    assert bot.dict == between - {k};
    UpdateThenRemove(before, k, bot.lower(t));
    PlainWordIsLookup(w);
    looked := bot.Handle(w);
  }
}
