/** The transverse index profile of WaveguideChannels: num_channels parallel
    cores of equal width, spaced gap apart and centred about x = 0, some of
    which may be excluded (left as cladding). */
module Channels {

  /** The centre of channel k: the first centre is -(N - 1)(gap + width)/2 and
      each next one is gap + width further on. */
  function Center(numChannels: int, gap: real, width: real, k: int): real
  {
    -0.5 * (numChannels - 1) as real * (gap + width) + k as real * (gap + width)
  }

  /** Sample x lies in the core of channel k, edges included. */
  predicate InChannel(x: real, numChannels: int, gap: real, width: real, k: int)
  {
    Center(numChannels, gap, width, k) - 0.5 * width <= x <= Center(numChannels, gap, width, k) + 0.5 * width
  }

  /** Sample x lies in the core of some channel below `upto` that is not excluded. */
  ghost predicate Covered(x: real, numChannels: int, gap: real, width: real, exclude: seq<int>, upto: int)
  {
    exists k :: 0 <= k < upto && k !in exclude && InChannel(x, numChannels, gap, width, k)
  }

  /** The index profile over the transverse samples x: the core index at every
      sample that lies in a channel that is not excluded, the cladding index
      everywhere else. */
  method ChannelProfile(x: seq<real>, mesh: nat, width: real, gap: real, numChannels: int,
                        exclude: seq<int>, core: real, clad: real) returns (n: seq<real>)
    requires |x| == mesh
    ensures |n| == mesh
    ensures forall s :: 0 <= s < mesh ==>
      n[s] == if Covered(x[s], numChannels, gap, width, exclude, numChannels) then core else clad
  {
    var start := -0.5 * (numChannels - 1) as real * (gap + width);
    n := seq(mesh, _ => clad);
    var out := 0;
    while out < numChannels
      invariant 0 <= out <= if numChannels < 0 then 0 else numChannels
      invariant |n| == mesh
      invariant forall s :: 0 <= s < mesh ==>
        n[s] == if Covered(x[s], numChannels, gap, width, exclude, out) then core else clad
    {
      if out !in exclude {
        var center := start + out as real * (gap + width);
        var leftEdge := center - 0.5 * width;
        var rightEdge := center + 0.5 * width;
        assert center == Center(numChannels, gap, width, out);
        n := seq(mesh, s requires 0 <= s < mesh => if leftEdge <= x[s] && x[s] <= rightEdge then core else n[s]);
      }
      forall s | 0 <= s < mesh
        ensures Covered(x[s], numChannels, gap, width, exclude, out + 1) <==>
          Covered(x[s], numChannels, gap, width, exclude, out)
          || (out !in exclude && InChannel(x[s], numChannels, gap, width, out))
      {
        CoveredStep(x[s], numChannels, gap, width, exclude, out);
      }
      out := out + 1;
    }
  }

  /** Taking one more channel into account adds exactly that channel's core,
      unless it is excluded. */
  lemma CoveredStep(x: real, numChannels: int, gap: real, width: real, exclude: seq<int>, out: int)
    requires 0 <= out
    ensures Covered(x, numChannels, gap, width, exclude, out + 1) <==>
      Covered(x, numChannels, gap, width, exclude, out)
      || (out !in exclude && InChannel(x, numChannels, gap, width, out))
  {
    if Covered(x, numChannels, gap, width, exclude, out + 1) {
      var k :| 0 <= k < out + 1 && k !in exclude && InChannel(x, numChannels, gap, width, k);
      if k < out {
        assert Covered(x, numChannels, gap, width, exclude, out);
      }
    }
  }

  /** The channels are evenly spaced by gap + width and placed symmetrically
      about x = 0: channel k and channel N - 1 - k have opposite centres. */
  lemma CenterSpacing(numChannels: int, gap: real, width: real, k: int)
    ensures Center(numChannels, gap, width, k + 1) - Center(numChannels, gap, width, k) == gap + width
    ensures Center(numChannels, gap, width, k) + Center(numChannels, gap, width, numChannels - 1 - k) == 0.0
  {
    var c := gap + width;
    assert (k + 1) as real * c == k as real * c + c;
    assert (numChannels - 1 - k) as real * c == (numChannels - 1) as real * c - k as real * c;
  }

  /** Centres of channels m apart lie m * (gap + width) apart. */
  lemma CenterDistance(numChannels: int, gap: real, width: real, j: int, k: int)
    ensures Center(numChannels, gap, width, j) - Center(numChannels, gap, width, k) == (j - k) as real * (gap + width)
  {
    var c := gap + width;
    assert j as real * c - k as real * c == (j - k) as real * c;
  }

  /** With cores that do not overlap (gap and width at least zero, not both zero)
      the centre of channel k lies in no other core, so the sample there is
      core iff channel k is not excluded. */
  lemma CenterSampleCovered(numChannels: int, gap: real, width: real, exclude: seq<int>, k: int)
    requires 0.0 <= gap && 0.0 <= width && 0.0 < gap + width && 0 <= k < numChannels
    ensures Covered(Center(numChannels, gap, width, k), numChannels, gap, width, exclude, numChannels) <==> k !in exclude
  {
    var x := Center(numChannels, gap, width, k);
    if k !in exclude {
      assert InChannel(x, numChannels, gap, width, k);
    } else {
      forall j | 0 <= j < numChannels && j !in exclude
        ensures !InChannel(x, numChannels, gap, width, j)
      {
        if j > k {
          CentersApart(numChannels, gap, width, j, k);
        } else {
          CentersApart(numChannels, gap, width, k, j);
        }
      }
    }
  }

  /** A later channel's centre lies at least gap + width beyond an earlier one's. */
  lemma CentersApart(numChannels: int, gap: real, width: real, j: int, k: int)
    requires k < j && 0.0 < gap + width
    ensures Center(numChannels, gap, width, j) - Center(numChannels, gap, width, k) >= gap + width
  {
    var c := gap + width;
    var m := j - k;
    CenterDistance(numChannels, gap, width, j, k);
    AtLeastOnce(m, c);
    var prod := m as real * c;
    assert Center(numChannels, gap, width, j) - Center(numChannels, gap, width, k) == prod;
    assert prod >= c;
  }

  /** m >= 1 copies of a positive c add up to at least c. */
  lemma AtLeastOnce(m: int, c: real)
    requires 1 <= m && 0.0 < c
    ensures m as real * c >= c
  {
    assert (m - 1) as real * c >= 0.0;
    assert m as real * c == (m - 1) as real * c + c;
  }

  /** Excluding more channels can only turn core samples into cladding ones. */
  lemma ExcludeMore(x: real, numChannels: int, gap: real, width: real, fewer: seq<int>, more: seq<int>)
    requires forall e :: e in fewer ==> e in more
    ensures Covered(x, numChannels, gap, width, more, numChannels) ==> Covered(x, numChannels, gap, width, fewer, numChannels)
  {
    if Covered(x, numChannels, gap, width, more, numChannels) {
      var k :| 0 <= k < numChannels && k !in more && InChannel(x, numChannels, gap, width, k);
      assert k !in fewer;
    }
  }

  /** Of two channels, with channel 1 excluded only channel 0's core remains;
      with none excluded both cores are there. */
  lemma TwoChannels(x: real, gap: real, width: real)
    ensures Covered(x, 2, gap, width, [1], 2) <==> InChannel(x, 2, gap, width, 0)
    ensures Covered(x, 2, gap, width, [], 2) <==> InChannel(x, 2, gap, width, 0) || InChannel(x, 2, gap, width, 1)
  {
    CoveredStep(x, 2, gap, width, [1], 0);
    CoveredStep(x, 2, gap, width, [1], 1);
    CoveredStep(x, 2, gap, width, [], 0);
    CoveredStep(x, 2, gap, width, [], 1);
  }
}
