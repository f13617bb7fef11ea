/**
  The shader-variant cache (`Material` in fluidSimulation.ts). A material
  owns one fragment shader source and lazily compiles one program per
  keyword-list key, remembering which program is active and whose
  uniform table is loaded. Compiling and linking are GL calls; here a
  compiled program is a fresh identifier together with the exact source
  text that was handed to the compiler.
 */
module Materials {
  import opened Common
  import opened ShaderKeywords

  /** A compiled program: a fresh identity and the source it was built from. */
  datatype Program = Program(id: nat, source: string)

  /** `programs` maps cache keys to programs, `active` is `activeProgram`,
      `uniformsOf` the program whose uniform locations `uniforms` holds
      (None while `uniforms` is still the empty record), and `nextId` the
      number of programs compiled so far. */
  datatype Material = Material(
    fragmentSource: string,
    programs: map<int, Program>,
    active: Option<Program>,
    uniformsOf: Option<Program>,
    nextId: nat)

  /** `new Material(vertexShader, fragmentShaderSource)`. */
  function NewMaterial(fragmentSource: string): (m: Material)
    ensures Valid(m)
  {
    Material(fragmentSource, map[], None, None, 0)
  }

  /** The cache's bookkeeping: every cached program has its own identity
      below `nextId`, one program was compiled per key, and the uniform
      table always belongs to the active program, which is a cached one. */
  predicate Valid(m: Material) {
    && |m.programs| == m.nextId
    && (forall k :: k in m.programs ==> m.programs[k].id < m.nextId)
    && (forall k1, k2 :: k1 in m.programs && k2 in m.programs && k1 != k2 ==>
          m.programs[k1].id != m.programs[k2].id)
    && m.uniformsOf == m.active
    && (m.active.Some? ==> exists k :: k in m.programs && m.programs[k] == m.active.value)
  }

  /** The program cached under `key`, compiling it on a miss (the first
      half of `setKeywords`). */
  function Lookup(m: Material, key: int, keywords: seq<string>): (m1: Material)
    requires Valid(m)
    ensures Valid(m1)
    ensures key in m1.programs
    ensures m1.fragmentSource == m.fragmentSource && m1.active == m.active
    ensures key in m.programs ==> m1 == m
    ensures key !in m.programs ==>
              && m1.nextId == m.nextId + 1
              && m1.programs == m.programs[key := Program(m.nextId, AddKeywords(m.fragmentSource, Some(keywords)))]
              && (m.active.Some? ==> m.active != Some(m1.programs[key]))
  {
    if key in m.programs then m
    else
      var p := Program(m.nextId, AddKeywords(m.fragmentSource, Some(keywords)));
      CompileKeepsValid(m, key, p);
      m.(programs := m.programs[key := p], nextId := m.nextId + 1)
  }

  lemma CompileKeepsValid(m: Material, key: int, p: Program)
    requires Valid(m) && key !in m.programs && p.id == m.nextId
    ensures m.active.Some? ==> m.active.value.id < m.nextId
    ensures Valid(m.(programs := m.programs[key := p], nextId := m.nextId + 1))
  {
    var m1 := m.(programs := m.programs[key := p], nextId := m.nextId + 1);
    assert |m1.programs| == |m.programs| + 1;
    if m.active.Some? {
      var k :| k in m.programs && m.programs[k] == m.active.value;
      assert m1.programs[k] == m.active.value;
    }
  }

  /** `setKeywords(gl, keywords)`: look the key up, compile on a miss, and
      switch the active program (reloading the uniform table) only when the
      selected program is not already active. */
  function SetKeywords(m: Material, keywords: seq<string>): (r: Material)
    requires Valid(m)
    ensures Valid(r)
    ensures r.fragmentSource == m.fragmentSource
    ensures KeywordHash(keywords) in r.programs
    ensures r.active == Some(r.programs[KeywordHash(keywords)])
    ensures KeywordHash(keywords) in m.programs ==>
              r.programs == m.programs && r.nextId == m.nextId
    ensures KeywordHash(keywords) !in m.programs ==>
              && r.nextId == m.nextId + 1
              && r.programs == m.programs[KeywordHash(keywords) :=
                   Program(m.nextId, AddKeywords(m.fragmentSource, Some(keywords)))]
    ensures m.active == Some(r.programs[KeywordHash(keywords)]) ==> r == m
  {
    var key := KeywordHash(keywords);
    var m1 := Lookup(m, key, keywords);
    var program := m1.programs[key];
    if Some(program) == m1.active then m1
    else
      m1.(uniformsOf := Some(program), active := Some(program))
  }

  /** Selecting the same keyword list twice is the same as selecting it
      once: the second call compiles nothing and changes nothing. */
  lemma SetKeywordsIdempotent(m: Material, keywords: seq<string>)
    requires Valid(m)
    ensures SetKeywords(SetKeywords(m, keywords), keywords) == SetKeywords(m, keywords)
  {
  }

  /** A permuted keyword list hits the program cached for the original
      list: no compile, same active program, nothing changes. */
  lemma SetKeywordsPermuted(m: Material, a: seq<string>, b: seq<string>)
    requires Valid(m)
    requires multiset(a) == multiset(b)
    ensures SetKeywords(SetKeywords(m, a), b) == SetKeywords(m, a)
  {
    KeywordHashPermutation(a, b);
  }

  /** A sequence of selections, as the engine issues them. */
  function SetKeywordsAll(m: Material, lists: seq<seq<string>>): (r: Material)
    requires Valid(m)
    ensures Valid(r)
    decreases |lists|
  {
    if |lists| == 0 then m else SetKeywordsAll(SetKeywords(m, lists[0]), lists[1..])
  }

  /** The set of cache keys a sequence of keyword lists produces. */
  function Keys(lists: seq<seq<string>>): set<int>
  {
    if |lists| == 0 then {} else {KeywordHash(lists[0])} + Keys(lists[1..])
  }

  lemma MapSize<K, V>(m: map<K, V>)
    ensures |m| == |m.Keys|
  {
  }

  lemma SetKeywordsKeys(m: Material, keywords: seq<string>)
    requires Valid(m)
    ensures SetKeywords(m, keywords).programs.Keys == m.programs.Keys + {KeywordHash(keywords)}
  {
  }

  /** After a sequence of selections the cache holds exactly the keys it
      held before plus the keys requested. */
  lemma {:induction false} CachedKeys(m: Material, lists: seq<seq<string>>)
    requires Valid(m)
    ensures SetKeywordsAll(m, lists).programs.Keys == m.programs.Keys + Keys(lists)
    decreases |lists|
  {
    if |lists| > 0 {
      var m1 := SetKeywords(m, lists[0]);
      CachedKeys(m1, lists[1..]);
      SetKeywordsAllCons(m, lists);
      SetKeywordsKeys(m, lists[0]);
      UnionShift(m.programs.Keys, KeywordHash(lists[0]), Keys(lists[1..]));
    }
  }

  lemma SetKeywordsAllCons(m: Material, lists: seq<seq<string>>)
    requires Valid(m) && |lists| > 0
    ensures SetKeywordsAll(m, lists).programs.Keys
              == SetKeywordsAll(SetKeywords(m, lists[0]), lists[1..]).programs.Keys
  {
  }

  lemma UnionShift(a: set<int>, k: int, c: set<int>)
    ensures (a + {k}) + c == a + ({k} + c)
  {
  }

  /** Each program is compiled at most once per key: the number of
      compiles equals the number of distinct keys ever requested. */
  lemma CompilesOncePerKey(m: Material, lists: seq<seq<string>>)
    requires Valid(m)
    ensures SetKeywordsAll(m, lists).nextId == |m.programs.Keys + Keys(lists)|
  {
    var r := SetKeywordsAll(m, lists);
    CachedKeys(m, lists);
    MapSize(r.programs);
  }
}
