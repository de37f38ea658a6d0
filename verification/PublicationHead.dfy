/** The formal head of a project: how many authority events there are, the digest they chain to,
    and how many publications were committed. */
module PublicationHead {
  type Digest = int

  datatype Head = Head(sequence: nat, root: Digest, revision: nat)
}
