/** The top-level copy of the variation-based K-means script. Its windowing
    and cluster naming are those of `KmeansEuclidean`; it differs in how the
    run over the participants is kept: a dictionary from id to result, with
    no counters or distribution. */
module KmeansRoot {
  import opened Text
  import opened Runs

  /** `analisar_todas_pessoas`: every participant 11..38 is analysed in turn
      (the analysis is given, `None` when it raises) and the results of those
      that returned are stored under their id. */
  method AnalisarTodasPessoas<R>(analyze: int -> Option<R>) returns (resultados: map<int, R>)
    ensures forall id :: id in resultados <==> 11 <= id <= 38 && analyze(id).Some?
    ensures forall id :: id in resultados ==> analyze(id) == Some(resultados[id])
    ensures |resultados| <= 28
  {
    resultados := CollectIntoMap(DownsampledIds(), analyze);
    KeysFromList(DownsampledIds(), resultados);
    forall id ensures id in DownsampledIds() <==> 11 <= id <= 38 {
      if 11 <= id <= 38 {
        assert DownsampledIds()[id - 11] == id;
      }
    }
  }
}
