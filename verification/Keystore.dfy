/**
 The keystore on disk: one file for every key, named after the key (keystore/keystore.go).
 */
module Keystore {
  import opened Prelude
  import opened Base32
  import opened Base32Number

  /** A key name is any string of bytes. */
  type Name = Bytes

  datatype Key = Key(id: nat)

  /** What a key file holds; a write that fails leaves the file behind. */
  datatype Contents = Whole(key: Key) | Partial

  datatype Error = EmptyName | KeyExists | NoSuchKey | NotExist | BadKey | IOError

  datatype Outcome<+T> = Ok(value: T) | Err(error: Error)

  const PREFIX := "key_"

  function FileName(name: Name): string {
    PREFIX + ToLower(EncodeToString(name))
  }

  function Encode(name: Name): Outcome<string> {
    if name == [] then Err(EmptyName) else Ok(FileName(name))
  }

  function Decode(file: string): Option<Name> {
    if PREFIX <= file then DecodeString(ToUpper(file[|PREFIX|..])) else None
  }

  /** Every name comes back from its file name. */
  lemma DecodeEncoded(name: Name)
    requires name != []
    ensures Encode(name).Ok? && Decode(Encode(name).value) == Some(name)
  {
    assert FileName(name)[|PREFIX|..] == ToLower(EncodeToString(name));
    LowerUpper(name);
    DecodeEncode(name);
  }

  /** A file name is the prefix and the encoded name in lower case. */
  lemma FileNameText(name: Name)
    ensures var f := FileName(name);
      && |f| == 4 + (8 * |name| + 4) / 5 && f[..4] == "key_"
      && (forall i :: 4 <= i < |f| ==> 'a' <= f[i] <= 'z' || '2' <= f[i] <= '7')
      && ToUpper(f[4..]) == EncodeToString(name)
  {
    var f, t := FileName(name), EncodeToString(name);
    EncodingIsNumber(name);
    hide EncodeToString;
    assert f[4..] == ToLower(t);
    LowerUpper(name);
    forall i | 4 <= i < |f| ensures 'a' <= f[i] <= 'z' || '2' <= f[i] <= '7' {
      EncodedCharacter(name, i - 4);
      assert f[i] == ToLower(t)[i - 4];
    }
  }

  lemma EncodedCharacter(name: Name, i: nat)
    requires i < |EncodeToString(name)|
    ensures var c := EncodeToString(name)[i]; 'A' <= c <= 'Z' || '2' <= c <= '7'
  {
    assert EncodeToString(name)[i] == Upper(Digits(name)[i]);
  }

  /** A file has a name to give if it starts with the prefix and goes on with base 32 text in either case. */
  lemma DecodableFile(file: string)
    ensures Decode(file).Some? <==>
      "key_" <= file && forall i :: 4 <= i < |file| ==> Legal(UpperCase(file[i]))
  {
    hide DecodeString, Legal, UpperCase;
    if "key_" <= file {
      var t := ToUpper(file[4..]);
      DecodableText(t);
      assert forall i :: 4 <= i < |file| ==> t[i - 4] == UpperCase(file[i]);
      assert forall j :: 0 <= j < |t| ==> t[j] == UpperCase(file[j + 4]);
    }
  }

  lemma FileNameInjective(n: Name, m: Name)
    requires FileName(n) == FileName(m)
    ensures n == m
  {
    if n != [] && m != [] {
      DecodeEncoded(n);
      DecodeEncoded(m);
    } else {
      assert FileName(n)[|PREFIX|..] == ToLower(EncodeToString(n));
      assert FileName(m)[|PREFIX|..] == ToLower(EncodeToString(m));
      LowerUpper(n);
      LowerUpper(m);
      EncodeInjective(n, m);
    }
  }

  /** `keys` are the keys whose files are in the directory. */
  ghost predicate KeysOf(dir: map<string, Contents>, keys: map<Name, Contents>) {
    forall n :: (n in keys <==> n != [] && FileName(n) in dir) && (n in keys ==> keys[n] == dir[FileName(n)])
  }

  ghost function KeysIn(dir: map<string, Contents>): (keys: map<Name, Contents>)
    ensures KeysOf(dir, keys)
  {
    var names := set f | f in dir && Decode(f).Some? :: Decode(f).value;
    assert forall n: Name :: n != [] && FileName(n) in dir ==> n in names by {
      forall n: Name | n != [] && FileName(n) in dir ensures n in names {
        DecodeEncoded(n);
      }
    }
    map n | n in names && n != [] && FileName(n) in dir :: dir[FileName(n)]
  }

  /** Every file in the directory is that of a key. */
  ghost predicate OnlyKeys(dir: map<string, Contents>, keys: map<Name, Contents>) {
    forall f :: f in dir ==> exists n :: n in keys && FileName(n) == f
  }

  lemma KeysMore(dir: map<string, Contents>, keys: map<Name, Contents>, name: Name, contents: Contents)
    requires KeysOf(dir, keys) && name != []
    ensures KeysOf(dir[FileName(name) := contents], keys[name := contents])
    ensures OnlyKeys(dir, keys) ==> OnlyKeys(dir[FileName(name) := contents], keys[name := contents])
  {
    hide FileName;
    forall n | FileName(n) == FileName(name) ensures n == name {
      FileNameInjective(n, name);
    }
    var keys' := keys[name := contents];
    assert forall n :: n in keys ==> n in keys';
    assert name in keys';
  }

  lemma KeysLess(dir: map<string, Contents>, keys: map<Name, Contents>, name: Name)
    requires KeysOf(dir, keys) && name != []
    ensures KeysOf(dir - {FileName(name)}, keys - {name})
    ensures OnlyKeys(dir, keys) ==> OnlyKeys(dir - {FileName(name)}, keys - {name})
  {
    hide FileName;
    forall n | FileName(n) == FileName(name) ensures n == name {
      FileNameInjective(n, name);
    }
    assert forall n :: n in keys && n != name ==> n in keys - {name};
  }

  // ----- the names that a directory lists

  function NamesOf(files: seq<string>): seq<Name> {
    if files == [] then []
    else
      var name := Decode(files[|files| - 1]);
      NamesOf(files[..|files| - 1]) + if name.Some? then [name.value] else []
  }

  ghost predicate Distinct<T>(s: seq<T>) {
    forall i, j :: 0 <= i < j < |s| ==> s[i] != s[j]
  }

  /**
   Exactly the names that some file decodes to; every key is among them, and if there are key files only, nothing
   else is and each comes once.
   */
  ghost predicate Lists(dir: map<string, Contents>, keys: map<Name, Contents>, list: seq<Name>) {
    && (forall n :: n in list <==> exists f :: f in dir && Decode(f) == Some(n))
    && (forall n :: n in keys ==> n in list)
    && (OnlyKeys(dir, keys) ==> Distinct(list) && forall n :: n in list ==> n in keys)
  }

  lemma NamesOfNone()
    ensures NamesOf([]) == []
  {
  }

  lemma NamesOfMore(files: seq<string>, f: string)
    ensures NamesOf(files + [f]) == NamesOf(files) + if Decode(f).Some? then [Decode(f).value] else []
  {
    hide Decode;
    assert (files + [f])[..|files|] == files;
  }

  lemma {:induction false} NamesMembers(files: seq<string>, n: Name)
    ensures n in NamesOf(files) <==> exists f :: f in files && Decode(f) == Some(n)
  {
    hide Decode;
    if files != [] {
      NamesMembers(files[..|files| - 1], n);
    }
  }

  lemma {:induction false} NamesDistinct(files: seq<string>)
    requires Distinct(files)
    requires forall f, g :: f in files && g in files && f != g ==> Decode(f) != Decode(g)
    ensures Distinct(NamesOf(files))
  {
    hide Decode;
    if files != [] {
      var init, last := files[..|files| - 1], files[|files| - 1];
      NamesDistinct(init);
      if Decode(last).Some? {
        NamesMembers(init, Decode(last).value);
        assert forall f :: f in init ==> f != last;
      }
    }
  }

  lemma ListsNames(dir: map<string, Contents>, keys: map<Name, Contents>, files: seq<string>)
    requires KeysOf(dir, keys) && Distinct(files) && forall f :: f in files <==> f in dir
    ensures Lists(dir, keys, NamesOf(files))
  {
    hide Decode, FileName, Distinct, NamesOf;
    forall n ensures n in NamesOf(files) <==> exists f :: f in dir && Decode(f) == Some(n) {
      NamesMembers(files, n);
    }
    forall n | n in keys ensures Decode(FileName(n)) == Some(n) {
      DecodeEncoded(n);
    }
    if OnlyKeys(dir, keys) {
      NamesDistinct(files);
    }
  }

  class FSKeystore {
    /** The directory: its files by name. It may hold files that are not key files. */
    var dir: map<string, Contents>
    /** The keys in it. */
    ghost var keys: map<Name, Contents>

    ghost predicate Valid()
      reads this
    {
      KeysOf(dir, keys)
    }

    /** Opens a directory that may exist already. */
    constructor (dir: map<string, Contents>)
      ensures Valid() && this.dir == dir
    {
      this.dir := dir;
      keys := KeysIn(dir);
    }

    method Has(name: Name, mayFail: bool) returns (r: Outcome<bool>)
      requires Valid()
      ensures name == [] ==> r == Err(EmptyName)
      ensures name != [] ==> r == Ok(name in keys) || (mayFail && r == Err(IOError))
    {
      var f := Encode(name);
      if f.Err? {
        return Err(f.error);
      }
      var failed := *;
      return if failed && mayFail then Err(IOError) else Ok(f.value in dir);
    }

    method Get(name: Name, mayFail: bool) returns (r: Outcome<Key>)
      requires Valid()
      ensures name == [] ==> r == Err(EmptyName)
      ensures r == Err(IOError) ==> mayFail
      ensures name != [] && name !in keys && r != Err(IOError) ==> r == Err(NoSuchKey)
      ensures name in keys && r != Err(IOError) ==>
        r == if keys[name].Whole? then Ok(keys[name].key) else Err(BadKey)
    {
      var f := Encode(name);
      if f.Err? {
        return Err(f.error);
      }
      var failed := *;
      if failed && mayFail {
        return Err(IOError);
      }
      if f.value !in dir {
        return Err(NoSuchKey);
      }
      match dir[f.value] {
        case Whole(k) => return Ok(k);
        case Partial => return Err(BadKey);
      }
    }

    /** Never overwrites a key. Creating or writing the file may fail only if `mayFail` is set. */
    method Put(name: Name, k: Key, mayFail: bool) returns (r: Outcome<()>)
      requires Valid()
      modifies this
      ensures Valid() && (old(OnlyKeys(dir, keys)) ==> OnlyKeys(dir, keys))
      ensures name == [] ==> r == Err(EmptyName)
      ensures name != [] && name in old(keys) ==> r == Err(KeyExists) || (mayFail && r == Err(IOError))
      ensures name != [] && name !in old(keys) && !mayFail ==> r.Ok?
      ensures r.Ok? ==> name !in old(keys) && keys == old(keys)[name := Whole(k)]
      ensures r.Err? ==>
        keys == old(keys) || (r.error == IOError && name !in old(keys) && keys == old(keys)[name := Partial])
    {
      hide KeysOf, OnlyKeys;
      var f := Encode(name);
      if f.Err? {
        return Err(f.error);
      }
      KeysHold(name);
      var created, wrote := *, *;
      created, wrote := created || !mayFail, wrote || !mayFail;
      if !created {
        return Err(IOError);
      }
      if f.value in dir {
        return Err(KeyExists);
      }
      var contents := if wrote then Whole(k) else Partial;
      KeysMore(dir, keys, name, contents);
      dir := dir[f.value := contents];
      keys := keys[name := contents];
      return if wrote then Ok(()) else Err(IOError);
    }

    lemma KeysHold(name: Name)
      requires Valid() && name != []
      ensures FileName(name) in dir <==> name in keys
    {
    }

    method Delete(name: Name, mayFail: bool) returns (r: Outcome<()>)
      requires Valid()
      modifies this
      ensures Valid() && (old(OnlyKeys(dir, keys)) ==> OnlyKeys(dir, keys))
      ensures name == [] ==> r == Err(EmptyName)
      ensures name != [] ==>
        r == (if name in old(keys) then Ok(()) else Err(NotExist)) || (mayFail && r == Err(IOError))
      ensures keys == if r.Ok? then old(keys) - {name} else old(keys)
    {
      hide KeysOf, OnlyKeys;
      var f := Encode(name);
      if f.Err? {
        return Err(f.error);
      }
      KeysHold(name);
      var failed := *;
      if failed && mayFail {
        return Err(IOError);
      }
      if f.value !in dir {
        return Err(NotExist);
      }
      KeysLess(dir, keys, name);
      dir := dir - {f.value};
      keys := keys - {name};
      return Ok(());
    }

    /** The names that the files decode to, in the order the directory happens to give. */
    method List(mayFail: bool) returns (r: Outcome<seq<Name>>)
      requires Valid()
      ensures r.Err? ==> mayFail && r.error == IOError
      ensures r.Ok? ==> Lists(dir, keys, r.value)
    {
      hide Decode, KeysOf, Lists, NamesOf;
      var failed := *;
      if failed && mayFail {
        return Err(IOError);
      }
      var list, left := [], dir.Keys;
      ghost var files: seq<string> := [];
      NamesOfNone();
      while left != {}
        invariant left <= dir.Keys && list == NamesOf(files) && Distinct(files)
        invariant forall f :: f in files <==> f in dir.Keys - left
      {
        var f :| f in left;
        assert f !in files;
        left := left - {f};
        NamesOfMore(files, f);
        files := files + [f];
        var name := Decode(f);
        if name.Some? {
          list := list + [name.value];
        }
      }
      ListsNames(dir, keys, files);
      return Ok(list);
    }
  }
}
