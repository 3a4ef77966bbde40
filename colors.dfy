/** The project colour registry of the Gantt chart: a project keeps the colour
    it was first given; a project seen for the first time takes the next
    palette entry, cycling through the thirty colours. */
module Colors {

  const Palette: seq<string> := [
    "#FF6347", "#4682B4", "#32CD32", "#FFD700", "#6A5ACD", "#FF4500", "#20B2AA", "#DAA520",
    "#9932CC", "#00CED1", "#FF69B4", "#8B008B", "#00FF7F", "#B22222", "#7FFF00", "#DC143C",
    "#00FA9A", "#4169E1", "#FF1493", "#ADFF2F", "#FF8C00", "#8A2BE2", "#228B22", "#FF00FF",
    "#1E90FF", "#FF4040", "#2E8B57", "#BA55D3", "#00BFFF", "#FF7F50"
  ]

  /** The colour given to each project so far, and how many have been given. */
  datatype ColorState = ColorState(colors: map<int, string>, index: nat)

  /** The registry as the chart keeps it: every colour is a palette entry and
      the counter equals the number of projects coloured. */
  predicate Consistent(st: ColorState) {
    && |st.colors.Keys| == st.index
    && forall p :: p in st.colors ==> InPalette(st.colors[p])
  }

  /** The colour is one of the palette's entries. */
  predicate InPalette(c: string) {
    exists i :: 0 <= i < |Palette| && Palette[i] == c
  }

  /** Look up the project's colour, giving it the next palette entry first if it has none. */
  function Register(st: ColorState, pid: int): (r: ColorState)
    ensures pid in r.colors
    ensures pid in st.colors ==> r == st
    ensures pid !in st.colors ==> r.colors[pid] == Palette[st.index % |Palette|] && r.index == st.index + 1
  {
    if pid in st.colors then st
    else ColorState(st.colors[pid := Palette[st.index % |Palette|]], st.index + 1)
  }

  /** Registering keeps the registry consistent. */
  lemma RegisterConsistent(st: ColorState, pid: int)
    requires Consistent(st)
    ensures Consistent(Register(st, pid))
  {
    var r := Register(st, pid);
    if pid !in st.colors {
      assert r.colors.Keys == st.colors.Keys + {pid};
      assert |r.colors.Keys| == |st.colors.Keys| + 1;
    }
  }

  /** Registering adds exactly the project to the coloured set. */
  lemma RegisterKeys(st: ColorState, pid: int)
    ensures Register(st, pid).colors.Keys == st.colors.Keys + {pid}
  {
  }

  /** Registering keeps the counter equal to the number of coloured projects. */
  lemma RegisterCount(st: ColorState, pid: int)
    requires |st.colors.Keys| == st.index
    ensures |Register(st, pid).colors.Keys| == Register(st, pid).index
  {
    if pid !in st.colors {
      assert Register(st, pid).colors.Keys == st.colors.Keys + {pid};
    }
  }

  /** Registering the same project twice is the same as registering it once. */
  lemma RegisterIdempotent(st: ColorState, pid: int)
    ensures Register(Register(st, pid), pid) == Register(st, pid)
  {
  }
}
