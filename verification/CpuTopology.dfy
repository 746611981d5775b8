// The numbering of cpu-map nodes in fdt_add_cpu_nodes.
module CpuTopology {
  import opened Arithmetic
  import opened Options

  // /cpus/cpu-map/socket/cluster0/core, with a thread level when cores have several threads.
  datatype Path = Path(socket: nat, core: nat, thread: Option<nat>)

  function MapPath(cpu: nat, cores: nat, threads: nat): Path
    requires cores > 0 && threads > 0
  {
    if threads > 1 then
      Path(cpu / Product(cores, threads), (cpu / threads) % cores, Some(cpu % threads))
    else
      Path(cpu / cores, cpu % cores, None)
  }

  function Product(a: nat, b: nat): (p: nat)
    requires a > 0 && b > 0
    ensures p == a * b && p > 0
  {
    MulPositive(a, b);
    a * b
  }

  lemma MulPositive(a: nat, b: nat)
    requires a > 0 && b > 0
    ensures a * b > 0
  {
    assert a * b >= a by {
      assert a * b == a + a * (b - 1);
    }
  }

  // The CPU index that a path stands for.
  function Index(p: Path, cores: nat, threads: nat): nat {
    (p.socket * cores + p.core) * threads + (if p.thread.Some? then p.thread.value else 0)
  }

  // Paths that name a node of the topology.
  predicate WellFormed(p: Path, cores: nat, threads: nat) {
    p.core < cores && (if threads > 1 then p.thread.Some? && p.thread.value < threads else p.thread == None)
  }

  // The digits of n in base b, a.
  lemma TwoDigits(n: nat, a: nat, b: nat, s: nat, c: nat, r: nat)
    requires c < a && r < b && n == (s * a + c) * b + r
    ensures n == s * Product(a, b) + (c * b + r) && c * b + r < Product(a, b)
  {
    assert (s * a + c) * b == s * (a * b) + c * b by {
      assert s * a * b == s * (a * b);
    }
    Larger(c, a, b);
  }

  // Dividing by the product is dividing twice.
  lemma DivTwice(n: nat, a: nat, b: nat)
    requires a > 0 && b > 0
    ensures n / Product(a, b) == n / b / a
  {
    var q, r := n / b, n % b;
    DivModDef(n, b);
    DivModDef(q, a);
    TwoDigits(n, a, b, q / a, q % a, r);
    DivModUnique(n, Product(a, b), q / a, q % a * b + r);
  }

  // The path of a CPU is well formed and gives the CPU back.
  lemma PathGivesCpu(cpu: nat, cores: nat, threads: nat)
    requires cores > 0 && threads > 0
    ensures WellFormed(MapPath(cpu, cores, threads), cores, threads)
    ensures Index(MapPath(cpu, cores, threads), cores, threads) == cpu
  {
    var p := MapPath(cpu, cores, threads);
    if threads > 1 {
      DivTwice(cpu, cores, threads);
      DivModDef(cpu, threads);
      DivModDef(cpu / threads, cores);
    } else {
      DivModDef(cpu, cores);
    }
  }

  // Every well-formed path is the path of the CPU it stands for.
  lemma CpuGivesPath(p: Path, cores: nat, threads: nat)
    requires cores > 0 && threads > 0 && WellFormed(p, cores, threads)
    ensures MapPath(Index(p, cores, threads), cores, threads) == p
  {
    var q := p.socket * cores + p.core;
    DivModUnique(q, cores, p.socket, p.core);
    if threads > 1 {
      var cpu := q * threads + p.thread.value;
      DivModUnique(cpu, threads, q, p.thread.value);
      DivTwice(cpu, cores, threads);
    }
  }

  // Distinct CPUs get distinct nodes.
  lemma PathsAreUnique(cpu: nat, other: nat, cores: nat, threads: nat)
    requires cores > 0 && threads > 0 && MapPath(cpu, cores, threads) == MapPath(other, cores, threads)
    ensures cpu == other
  {
    PathGivesCpu(cpu, cores, threads);
    PathGivesCpu(other, cores, threads);
  }

  // With one thread a core, the two-level numbering is the three-level one.
  lemma SingleThreadAgrees(cpu: nat, cores: nat)
    requires cores > 0
    ensures var p := MapPath(cpu, cores, 1);
      p.socket == cpu / Product(cores, 1) && p.core == (cpu / 1) % cores && cpu % 1 == 0
  {
  }

  // CPUs are on the same core when they are in the same run of threads CPUs, and in the same socket
  // when they are in the same run of cores times threads.
  lemma NeighboursTogether(cpu: nat, other: nat, cores: nat, threads: nat)
    requires cores > 0 && threads > 0
    ensures var p, q := MapPath(cpu, cores, threads), MapPath(other, cores, threads);
      && (p.socket == q.socket && p.core == q.core <==> cpu / threads == other / threads)
      && (p.socket == q.socket <==> cpu / Product(cores, threads) == other / Product(cores, threads))
  {
    CoreIsQuotient(cpu, cores, threads);
    CoreIsQuotient(other, cores, threads);
    hide MapPath;
  }

  lemma CoreIsQuotient(cpu: nat, cores: nat, threads: nat)
    requires cores > 0 && threads > 0
    ensures var p := MapPath(cpu, cores, threads);
      && p.socket == cpu / Product(cores, threads)
      && p.socket == cpu / threads / cores && p.core == cpu / threads % cores
      && cpu / threads == p.socket * cores + p.core
  {
    DivTwice(cpu, cores, threads);
    DivModDef(cpu / threads, cores);
    if threads == 1 {
      assert cpu / 1 == cpu;
    }
  }

  // The threads of a core are numbered in the order of the CPUs, from 0 on.
  lemma ThreadsInOrder(cpu: nat, other: nat, cores: nat, threads: nat)
    requires cores > 0 && threads > 1 && cpu / threads == other / threads
    ensures var p, q := MapPath(cpu, cores, threads), MapPath(other, cores, threads);
      && p.thread.Some? && q.thread.Some?
      && q.thread.value - p.thread.value == other - cpu
      && (cpu % threads == 0 <==> p.thread.value == 0)
  {
    DivModDef(cpu, threads);
    DivModDef(other, threads);
  }
}
