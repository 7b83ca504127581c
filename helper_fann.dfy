// The MATLAB-side helpers of the FANN interface (helperFann.c). MATLAB hands
// over a data set as column-major matrices with one row per sample; FANN
// wants one array of values per sample. read_from_array copies the samples
// into row blocks, evaluateNetwork runs the network on each sample and
// writes the answers back column-major, and createNetwork picks the
// activation functions from a numeric code. The network itself (fann_run,
// fann_create_sparse_array, the weights) is not modelled: fann_run is a
// function parameter.
module FannHelper {
  import opened Common
  import opened ColumnMajor

  /** Sample i of a column-major matrix with N rows and w columns: entry j
      is at offset j*N + i (helperFann.c:71, 80, 149). */
  function Row(m: seq<real>, N: nat, w: nat, i: nat): (r: seq<real>)
    requires |m| == N * w && i < N
    ensures |r| == w
  {
    AllInRange(N, w);
    seq(w, j requires 0 <= j < w => m[Flat(N, i, j)])
  }

  /** A matrix is determined by its samples: two column-major matrices of
      the same shape with the same rows are equal. */
  lemma RowsDetermine(m: seq<real>, m2: seq<real>, N: nat, w: nat)
    requires |m| == N * w && |m2| == N * w
    requires forall i :: 0 <= i < N ==> Row(m, N, w, i) == Row(m2, N, w, i)
    ensures m == m2
  {
    forall x | 0 <= x < |m|
      ensures m[x] == m2[x]
    {
      FlatCovers(N, w, x);
      var i, j := x % N, x / N;
      assert Row(m, N, w, i)[j] == Row(m2, N, w, i)[j];
    }
  }

  /** Copies entry j of sample i of src to dst[at + j] for every j < w
      (the inner loops at helperFann.c:70-73, 79-82 and 148-151). */
  method CopyRow(src: array<real>, N: nat, w: nat, i: nat, dst: array<real>, at: nat)
    requires src != dst && i < N && src.Length == N * w && at + w <= dst.Length
    modifies dst
    ensures forall j :: 0 <= j < w ==> dst[at + j] == Row(src[..], N, w, i)[j]
    ensures forall x :: 0 <= x < dst.Length && !(at <= x < at + w) ==> dst[x] == old(dst[x])
  {
    AllInRange(N, w);
    var j := 0;
    while j != w
      invariant 0 <= j <= w
      invariant forall b :: 0 <= b < j ==> dst[at + b] == Row(src[..], N, w, i)[b]
      invariant forall x :: 0 <= x < dst.Length && !(at <= x < at + j) ==> dst[x] == old(dst[x])
    {
      FlatIsOffset(N, i, j);
      dst[at + j] := src[j * N + i];
      j := j + 1;
    }
  }

  /** The training set FANN works on (struct fann_train_data as filled by
      read_from_array): the sizes, and the samples' inputs and outputs each
      kept in one block, row i of the inputs starting at offset
      inputRows[i] of inputBlock and likewise for the outputs. */
  class TrainData {
    const numData: nat
    const numInput: nat
    const numOutput: nat
    const inputRows: array<nat>
    const inputBlock: array<real>
    const outputRows: array<nat>
    const outputBlock: array<real>

    /** The rows are consecutive slices of their block: row i starts where
        row i-1 ends (helperFann.c:67-68, 76-77). */
    ghost predicate Valid()
      reads inputRows, outputRows
    {
      inputRows.Length == numData && outputRows.Length == numData
      && inputBlock.Length == numData * numInput && outputBlock.Length == numData * numOutput
      && (forall i :: 0 <= i < numData ==> inputRows[i] == Flat(numInput, 0, i))
      && (forall i :: 0 <= i < numData ==> outputRows[i] == Flat(numOutput, 0, i))
    }

    /** The input values of sample i, data->input[i][0 .. num_input-1]. */
    ghost function Input(i: nat): (r: seq<real>)
      requires Valid() && i < numData
      reads this, inputRows, outputRows, inputBlock
      ensures |r| == numInput
    {
      RowsApart(numInput, numData + 1, i, numData);
      FlatIsOffset(numInput, 0, numData);
      inputBlock[inputRows[i] .. inputRows[i] + numInput]
    }

    /** The output values of sample i, data->output[i][0 .. num_output-1]. */
    ghost function Output(i: nat): (r: seq<real>)
      requires Valid() && i < numData
      reads this, inputRows, outputRows, outputBlock
      ensures |r| == numOutput
    {
      RowsApart(numOutput, numData + 1, i, numData);
      FlatIsOffset(numOutput, 0, numData);
      outputBlock[outputRows[i] .. outputRows[i] + numOutput]
    }

    constructor (numData: nat, numInput: nat, numOutput: nat,
                 inputRows: array<nat>, inputBlock: array<real>,
                 outputRows: array<nat>, outputBlock: array<real>)
      ensures this.numData == numData && this.numInput == numInput && this.numOutput == numOutput
      ensures this.inputRows == inputRows && this.inputBlock == inputBlock
      ensures this.outputRows == outputRows && this.outputBlock == outputBlock
    {
      this.numData := numData;
      this.numInput := numInput;
      this.numOutput := numOutput;
      this.inputRows := inputRows;
      this.inputBlock := inputBlock;
      this.outputRows := outputRows;
      this.outputBlock := outputBlock;
    }
  }

  /** Copies every sample of a column-major matrix into consecutive rows of
      a block, recording where each row starts (the moving data_input and
      data_output pointers of helperFann.c:66-83). */
  method FillRows(src: array<real>, N: nat, w: nat, rows: array<nat>, block: array<real>)
    requires src != block && src.Length == N * w && rows.Length == N && block.Length == N * w
    modifies rows, block
    ensures forall i :: 0 <= i < N ==> rows[i] == Flat(w, 0, i)
    ensures RowsFilled(block[..], src[..], N, w, N)
    ensures src[..] == old(src[..])
  {
    ghost var s := src[..];
    var at := 0;
    var i := 0;
    while i != N
      invariant 0 <= i <= N && at == Flat(w, 0, i) && src[..] == s
      invariant forall a :: 0 <= a < i ==> rows[a] == Flat(w, 0, a)
      invariant RowsFilled(block[..], s, N, w, i)
    {
      FillRow(src, N, w, i, rows, block, at);
      at := at + w;
      i := i + 1;
    }
  }

  /** One pass of the outer loop of helperFann.c:66-83: row i starts at
      offset at, its entries are copied there, and the rows before it are
      left alone. */
  method FillRow(src: array<real>, N: nat, w: nat, i: nat, rows: array<nat>, block: array<real>, at: nat)
    requires src != block && src.Length == N * w && rows.Length == N && block.Length == N * w
    requires i < N && at == Flat(w, 0, i)
    modifies rows, block
    ensures rows[i] == at && forall a :: 0 <= a < N && a != i ==> rows[a] == old(rows[a])
    ensures at + w == Flat(w, 0, i + 1)
    requires RowsFilled(block[..], src[..], N, w, i)
    ensures RowsFilled(block[..], src[..], N, w, i + 1)
    ensures src[..] == old(src[..])
  {
    ghost var s := src[..];
    ghost var before := block[..];
    rows[i] := at;
    RowsApart(w, N + 1, i, N);
    FlatIsOffset(w, 0, N);
    forall a, b | 0 <= a < i && 0 <= b < w
      ensures Flat(w, b, a) < at
    {
      BeforeRow(w, a, b, i);
    }
    CopyRow(src, N, w, i, block, at);
    assert src[..] == s;
    forall a, b | 0 <= a < i + 1 && 0 <= b < w
      ensures Flat(w, b, a) < block.Length && block[Flat(w, b, a)] == Row(s, N, w, a)[b]
    {
      if a < i {
        assert block[Flat(w, b, a)] == before[Flat(w, b, a)];
      } else {
        FlatShift(w, b, i);
      }
    }
  }

  /** The first k rows of a column-major matrix m have been copied into
      consecutive rows of bs. */
  ghost predicate RowsFilled(bs: seq<real>, m: seq<real>, N: nat, w: nat, k: nat)
    requires |m| == N * w && k <= N
  {
    forall a, b :: 0 <= a < k && 0 <= b < w ==>
      Flat(w, b, a) < |bs| && bs[Flat(w, b, a)] == Row(m, N, w, a)[b]
  }

  /** read_from_array (helperFann.c:16-85): the data set with the given
      sizes, sample i's inputs being row i of din and its outputs row i of
      dout. allocations is how many of the five allocations succeed before
      the first that fails; any failure yields no data set. */
  method ReadFromArray(din: array<real>, dout: array<real>, numData: nat, numInput: nat, numOutput: nat, allocations: nat)
    returns (r: Option<TrainData>)
    requires din.Length == numData * numInput && dout.Length == numData * numOutput
    ensures r.Some? <==> allocations >= 5
    ensures r.Some? ==> var d := r.value;
      fresh(d) && fresh(d.inputRows) && fresh(d.inputBlock) && fresh(d.outputRows) && fresh(d.outputBlock)
      && d.numData == numData && d.numInput == numInput && d.numOutput == numOutput && d.Valid()
      && (forall i :: 0 <= i < numData ==> d.Input(i) == Row(din[..], numData, numInput, i))
      && (forall i :: 0 <= i < numData ==> d.Output(i) == Row(dout[..], numData, numOutput, i))
  {
    if allocations < 1 {
      return None;
    }
    if allocations < 2 {
      return None;
    }
    var inputRows := new nat[numData];
    if allocations < 3 {
      return None;
    }
    var outputRows := new nat[numData];
    if allocations < 4 {
      return None;
    }
    var inputBlock := new real[numData * numInput];
    if allocations < 5 {
      return None;
    }
    var outputBlock := new real[numData * numOutput];
    var d := Assemble(din, dout, numData, numInput, numOutput, inputRows, inputBlock, outputRows, outputBlock);
    r := Some(d);
  }

  /** The copying loop of read_from_array (helperFann.c:65-84) once every
      allocation has succeeded: the rows and blocks are filled and wrapped
      up as a data set. */
  method Assemble(din: array<real>, dout: array<real>, numData: nat, numInput: nat, numOutput: nat,
                  inputRows: array<nat>, inputBlock: array<real>, outputRows: array<nat>, outputBlock: array<real>)
    returns (d: TrainData)
    requires din.Length == numData * numInput && dout.Length == numData * numOutput
    requires inputRows.Length == numData && outputRows.Length == numData && inputRows != outputRows
    requires inputBlock.Length == numData * numInput && outputBlock.Length == numData * numOutput
    requires inputBlock != outputBlock && din != inputBlock && din != outputBlock && dout != inputBlock && dout != outputBlock
    modifies inputRows, inputBlock, outputRows, outputBlock
    ensures fresh(d) && d.inputRows == inputRows && d.inputBlock == inputBlock
    ensures d.outputRows == outputRows && d.outputBlock == outputBlock
    ensures d.numData == numData && d.numInput == numInput && d.numOutput == numOutput && d.Valid()
    ensures forall i :: 0 <= i < numData ==> d.Input(i) == Row(din[..], numData, numInput, i)
    ensures forall i :: 0 <= i < numData ==> d.Output(i) == Row(dout[..], numData, numOutput, i)
  {
    ghost var si, so := din[..], dout[..];
    FillRows(din, numData, numInput, inputRows, inputBlock);
    ghost var ir, ib := inputRows[..], inputBlock[..];
    FillRows(dout, numData, numOutput, outputRows, outputBlock);
    ghost var orows, ob := outputRows[..], outputBlock[..];
    assert din[..] == si && dout[..] == so && inputRows[..] == ir && inputBlock[..] == ib;
    RowsMatch(ir, ib, si, numData, numInput);
    RowsMatch(orows, ob, so, numData, numOutput);
    d := new TrainData(numData, numInput, numOutput, inputRows, inputBlock, outputRows, outputBlock);
    assert outputRows[..] == orows && outputBlock[..] == ob;
    assert d.Valid();
    forall i | 0 <= i < numData
      ensures d.Input(i) == Row(si, numData, numInput, i)
      ensures d.Output(i) == Row(so, numData, numOutput, i)
    {
      assert d.Input(i) == ib[ir[i] .. ir[i] + numInput];
      assert d.Output(i) == ob[orows[i] .. orows[i] + numOutput];
    }
  }

  /** The slices of a block filled by FillRows are the samples. */
  lemma RowsMatch(rows: seq<nat>, bs: seq<real>, m: seq<real>, N: nat, w: nat)
    requires |rows| == N && |bs| == N * w && |m| == N * w
    requires forall i :: 0 <= i < N ==> rows[i] == Flat(w, 0, i)
    requires RowsFilled(bs, m, N, w, N)
    ensures forall i :: 0 <= i < N ==>
              rows[i] + w <= |bs| && bs[rows[i] .. rows[i] + w] == Row(m, N, w, i)
  {
    forall i | 0 <= i < N
      ensures rows[i] + w <= |bs| && bs[rows[i] .. rows[i] + w] == Row(m, N, w, i)
    {
      RowsApart(w, N + 1, i, N);
      FlatIsOffset(w, 0, N);
      forall j | 0 <= j < w
        ensures bs[rows[i] .. rows[i] + w][j] == Row(m, N, w, i)[j]
      {
        FlatShift(w, j, i);
      }
    }
  }

  /** Writes the answer out for sample i: out[j] goes to offset j*N + i
      (helperFann.c:157-160). */
  method ScatterRow(out: seq<real>, N: nat, w: nat, i: nat, dst: array<real>)
    requires i < N && dst.Length == N * w && |out| == w
    modifies dst
    ensures forall j :: 0 <= j < w ==> Flat(N, i, j) < dst.Length && dst[Flat(N, i, j)] == out[j]
    ensures forall a, b :: 0 <= a < N && a != i && 0 <= b < w ==>
              Flat(N, a, b) < dst.Length && dst[Flat(N, a, b)] == old(dst[Flat(N, a, b)])
  {
    AllInRange(N, w);
    var j := 0;
    while j < w
      invariant 0 <= j <= w
      invariant forall b :: 0 <= b < j ==> dst[Flat(N, i, b)] == out[b]
      invariant forall a, b :: 0 <= a < N && (a != i || j <= b) && 0 <= b < w ==> dst[Flat(N, a, b)] == old(dst[Flat(N, a, b)])
    {
      OthersApart(N, i, j);
      FlatIsOffset(N, i, j);
      dst[j * N + i] := out[j];
      j := j + 1;
    }
  }

  /** evaluateNetwork (helperFann.c:133-165): for every sample i, the
      network's answer to row i of input becomes row i of output. run is
      fann_run on the network, giving numOutputs values for numInputs. */
  method EvaluateNetwork(run: seq<real> -> seq<real>, numInputs: nat, numOutputs: nat,
                         input: array<real>, output: array<real>, numData: nat)
    requires input != output && input.Length == numData * numInputs && output.Length == numData * numOutputs
    requires forall x: seq<real> :: |x| == numInputs ==> |run(x)| == numOutputs
    modifies output
    ensures forall i :: 0 <= i < numData ==>
              Row(output[..], numData, numOutputs, i) == run(Row(input[..], numData, numInputs, i))
  {
    ghost var s := input[..];
    var buf := new real[numInputs];
    var i := 0;
    while i < numData
      invariant 0 <= i <= numData && input[..] == s
      invariant forall a :: 0 <= a < i ==>
                  Row(output[..], numData, numOutputs, a) == run(Row(s, numData, numInputs, a))
    {
      CopyRow(input, numData, numInputs, i, buf, 0);
      assert input[..] == s;
      assert buf[..] == Row(s, numData, numInputs, i) by {
        forall j | 0 <= j < numInputs
          ensures buf[j] == Row(s, numData, numInputs, i)[j]
        {
          assert buf[0 + j] == buf[j];
        }
      }
      var out := run(buf[..]);
      ghost var before := output[..];
      ScatterRow(out, numData, numOutputs, i, output);
      forall a | 0 <= a <= i
        ensures Row(output[..], numData, numOutputs, a) == run(Row(s, numData, numInputs, a))
      {
        if a < i {
          forall b | 0 <= b < numOutputs
            ensures Row(output[..], numData, numOutputs, a)[b] == Row(before, numData, numOutputs, a)[b]
          {
          }
        } else {
          forall b | 0 <= b < numOutputs
            ensures Row(output[..], numData, numOutputs, a)[b] == out[b]
          {
          }
        }
      }
      i := i + 1;
    }
  }

  /** FANN's activation functions used here. */
  datatype Activation = SigmoidSymmetric | GaussianSymmetric | LinearPieceSymmetric | Linear

  /** The settings createNetwork gives a new network: the hidden layers'
      activation, the output layer's, and training by RPROP with the linear
      error function and the mean-squared-error stop test
      (helperFann.c:96-114). */
  datatype NetworkSettings = NetworkSettings(hidden: Activation, output: Activation)

  /** createNetwork's choice of activations (helperFann.c:96-109). */
  function Settings(funType: nat): (c: NetworkSettings)
    ensures c.output == Linear
    ensures c.hidden == GaussianSymmetric <==> funType == 2
    ensures c.hidden == LinearPieceSymmetric <==> funType == 3
    ensures c.hidden == SigmoidSymmetric <==> funType != 2 && funType != 3
    ensures c.hidden != Linear
  {
    var hidden := match funType
      case 1 => SigmoidSymmetric
      case 2 => GaussianSymmetric
      case 3 => LinearPieceSymmetric
      case _ => SigmoidSymmetric;
    NetworkSettings(hidden, Linear)
  }
}
