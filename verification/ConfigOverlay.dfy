/** Configuration values over configuration values (pkg/config/types/types.go). */
module ConfigOverlay {
  import opened Text

  // ---------- one value over another

  function Ies(i: string, e: string): string { if e != "" then e else i }
  function Iei(i: int, e: int): int { if e != 0 then e else i }

  function Iebp(i: Option<bool>, e: Option<bool>, def: bool): bool {
    match e
    case Some(b) => b
    case None => i.GetOr(def)
  }

  function Iebpp(i: Option<bool>, e: Option<bool>): Option<bool> { if e.Some? then e else i }

  // ---------- records: a flag goes with the pointer it is derived from

  datatype LibvirtProvider = LibvirtProvider(
    sessionURI: string, sshKey: string, storagePool: string, network: string, controlPlaneNode: Node,
    workerNode: Node, bootVolumeName: string, bootVolumeContainerImagePath: string, slirpSubnet: string,
    secureBoot: bool, secureBootPtr: Option<bool>, smm: bool, smmPtr: Option<bool>)
  datatype OciInstanceShape = OciInstanceShape(shape: string, ocpus: int, bootVolumeSize: string)
  datatype LoadBalancer = LoadBalancer(subnet1: string, subnet2: string)
  datatype OciImageSet = OciImageSet(amd64: string, arm64: string)
  datatype OciProvider = OciProvider(
    kubeConfigPath: string, compartment: string, profile: string, namespace: string,
    controlPlaneShape: OciInstanceShape, images: OciImageSet, workerShape: OciInstanceShape, selfManaged: bool,
    selfManagedPtr: Option<bool>, loadBalancer: LoadBalancer, vcn: string, imageBucket: string, proxy: Proxy)
  datatype OlvmProvider = OlvmProvider(
    controlPlaneMachine: OlvmMachine, csiDriver: OvirtCsiDriver, datacenterName: string,
    localAPIEndpoint: OlvmLocalAPIEndpoint, namespace: string, olvmAPIServer: OlvmAPIServer, olvmOck: OlvmOck,
    proxy: Proxy, selfManaged: bool, selfManagedPtr: Option<bool>, workerMachine: OlvmMachine)
  datatype OvirtCsiDriver = OvirtCsiDriver(
    configMapName: string, controllerPluginName: string, csiDriverName: string, install: bool,
    installPtr: Option<bool>, namespace: string, nodePluginName: string, secretName: string)
  datatype NamespacedName = NamespacedName(name: string, namespace: string)
  datatype OlvmOck = OlvmOck(diskName: string, diskSize: string, storageDomainName: string)
  datatype OlvmAPIServer = OlvmAPIServer(
    caConfigMap: NamespacedName, credentialsSecret: NamespacedName, insecureSkipTLSVerify: bool,
    insecureSkipTLSVerifyPtr: Option<bool>, serverCA: string, serverCAPath: string, serverURL: string)
  datatype OlvmMachine = OlvmMachine(
    olvmNetwork: OlvmNetwork, olvmOvirtClusterName: string, virtualMachine: OlvmVirtualMachine,
    vmTemplateName: string)
  datatype OlvmNetwork = OlvmNetwork(networkName: string, vnicName: string, vnicProfileName: string)
  datatype OlvmVirtualMachine = OlvmVirtualMachine(
    cpu: OlvmMachineCpu, memory: string, network: OlvmVirtualMachineNetwork)
  datatype OlvmMachineCpu = OlvmMachineCpu(architecture: string, topology: OlvmMachineCpuTopology)
  datatype OlvmMachineCpuTopology = OlvmMachineCpuTopology(cores: int, sockets: int, threads: int)
  datatype OlvmVirtualMachineNetwork = OlvmVirtualMachineNetwork(
    gateway: string, interface: string, interfaceType: string, ipv4: OlvmIPV4, ipv6: OlvmIPV6)
  datatype OlvmIPV4 = OlvmIPV4(subnet: string, ipAddresses: string)
  datatype OlvmIPV6 = OlvmIPV6(autoConf: bool, autoConfPtr: Option<bool>, ipAddresses: string)
  datatype OlvmLocalAPIEndpoint = OlvmLocalAPIEndpoint(bindPort: int, advertiseAddress: string)
  datatype ByoProvider = ByoProvider(
    automaticTokenCreation: bool, automaticTokenCreationPtr: Option<bool>, networkInterface: string)
  datatype Node = Node(memory: string, cpus: int, storage: string)
  datatype CertificateInformation = CertificateInformation(
    country: string, org: string, orgUnit: string, state: string)
  datatype Providers = Providers(libvirt: LibvirtProvider, oci: OciProvider, byo: ByoProvider, olvm: OlvmProvider)
  datatype Proxy = Proxy(httpsProxy: string, httpProxy: string, noProxy: string)
  datatype Catalog = Catalog(protocol: string, uri: string, name: string, namespace: string)
  datatype Application = Application(
    name: string, release: string, version: string, catalog: string, namespace: string, config: string,
    configFrom: string)
  datatype EphemeralClusterConfig = EphemeralClusterConfig(name: string, preserve: bool, node: Node)
  datatype Config = Config(
    providers: Providers, kubeConfig: string, autoStartUI: string, proxy: Proxy, kubeAPIServerBindPort: int,
    kubeAPIServerBindPortAlt: int, podSubnet: string, serviceSubnet: string, registry: string,
    certificateInformation: CertificateInformation, osTag: string, osRegistry: string, kubeProxyMode: string,
    bootVolumeContainerImage: string, cni: string, headless: bool, headlessPtr: Option<bool>, catalog: bool,
    catalogPtr: Option<bool>, communityCatalog: bool, communityCatalogPtr: Option<bool>,
    ephemeralConfig: EphemeralClusterConfig, quiet: bool, quietPtr: Option<bool>, kubeVersion: string,
    sshPublicKeyPath: string, sshPublicKey: string, password: string, extraIgnitionInline: string,
    extraIgnition: string)
  datatype ClusterConfig = ClusterConfig(
    workingDirectory: string, name: string, provider: string, providers: Providers, proxy: Proxy, registry: string,
    workerNodes: int, controlPlaneNodes: int, kubeAPIServerBindPort: int, kubeAPIServerBindPortAlt: int,
    virtualIp: string, loadBalancer: string, podSubnet: string, serviceSubnet: string,
    certificateInformation: CertificateInformation, osTag: string, osRegistry: string, kubeProxyMode: string,
    bootVolumeContainerImage: string, cni: string, headless: bool, headlessPtr: Option<bool>, catalog: bool,
    catalogPtr: Option<bool>, communityCatalog: bool, communityCatalogPtr: Option<bool>, catalogs: seq<Catalog>,
    applications: seq<Application>, kubeVersion: string, sshPublicKeyPath: string, sshPublicKey: string,
    password: string, cipherSuites: string, clusterDefinitionInline: string, clusterDefinition: string,
    extraIgnitionInline: string, extraIgnition: string)

  function MergeProxy(def: Proxy, ovr: Proxy): Proxy {
    Proxy(Ies(def.httpsProxy, ovr.httpsProxy), Ies(def.httpProxy, ovr.httpProxy), Ies(def.noProxy, ovr.noProxy))
  }

  function MergeCertificateInformation(def: CertificateInformation, ovr: CertificateInformation): CertificateInformation {
    CertificateInformation(Ies(def.country, ovr.country), Ies(def.org, ovr.org), Ies(def.orgUnit, ovr.orgUnit), Ies(def.state, ovr.state))
  }

  function MergeNode(def: Node, ovr: Node): Node {
    Node(Ies(def.memory, ovr.memory), Iei(def.cpus, ovr.cpus), Ies(def.storage, ovr.storage))
  }

  function MergeLibvirtProvider(def: LibvirtProvider, ovr: LibvirtProvider): LibvirtProvider {
    LibvirtProvider(Ies(def.sessionURI, ovr.sessionURI), Ies(def.sshKey, ovr.sshKey), Ies(def.storagePool, ovr.storagePool),
      Ies(def.network, ovr.network), MergeNode(def.controlPlaneNode, ovr.controlPlaneNode),
      MergeNode(def.workerNode, ovr.workerNode), Ies(def.bootVolumeName, ovr.bootVolumeName),
      Ies(def.bootVolumeContainerImagePath, ovr.bootVolumeContainerImagePath), Ies(def.slirpSubnet, ovr.slirpSubnet),
      Iebp(def.secureBootPtr, ovr.secureBootPtr, false), Iebpp(def.secureBootPtr, ovr.secureBootPtr),
      Iebp(def.smmPtr, ovr.smmPtr, false), Iebpp(def.smmPtr, ovr.smmPtr))
  }

  function MergeOciInstanceShape(def: OciInstanceShape, ovr: OciInstanceShape): OciInstanceShape {
    OciInstanceShape(Ies(def.shape, ovr.shape), Iei(def.ocpus, ovr.ocpus), Ies(def.bootVolumeSize, ovr.bootVolumeSize))
  }

  function MergeLoadBalancer(def: LoadBalancer, ovr: LoadBalancer): LoadBalancer {
    LoadBalancer(Ies(def.subnet1, ovr.subnet1), Ies(def.subnet2, ovr.subnet2))
  }

  function MergeOciImageSet(def: OciImageSet, ovr: OciImageSet): OciImageSet {
    OciImageSet(Ies(def.amd64, ovr.amd64), Ies(def.arm64, ovr.arm64))
  }

  function MergeOciProvider(def: OciProvider, ovr: OciProvider): OciProvider {
    OciProvider(Ies(def.kubeConfigPath, ovr.kubeConfigPath), Ies(def.compartment, ovr.compartment),
      Ies(def.profile, ovr.profile), Ies(def.namespace, ovr.namespace),
      MergeOciInstanceShape(def.controlPlaneShape, ovr.controlPlaneShape), MergeOciImageSet(def.images, ovr.images),
      MergeOciInstanceShape(def.workerShape, ovr.workerShape), Iebp(def.selfManagedPtr, ovr.selfManagedPtr, false),
      Iebpp(def.selfManagedPtr, ovr.selfManagedPtr), MergeLoadBalancer(def.loadBalancer, ovr.loadBalancer),
      Ies(def.vcn, ovr.vcn), Ies(def.imageBucket, ovr.imageBucket), MergeProxy(def.proxy, ovr.proxy))
  }

  function MergeOlvmProvider(def: OlvmProvider, ovr: OlvmProvider): OlvmProvider {
    OlvmProvider(MergeOlvmMachine(def.controlPlaneMachine, ovr.controlPlaneMachine),
      MergeOlvmCsiDriver(def.csiDriver, ovr.csiDriver), Ies(def.datacenterName, ovr.datacenterName),
      MergeOlvmLocalAPIEndpoint(def.localAPIEndpoint, ovr.localAPIEndpoint), Ies(def.namespace, ovr.namespace),
      MergeOlvmAPIServer(def.olvmAPIServer, ovr.olvmAPIServer), MergeOlvmOck(def.olvmOck, ovr.olvmOck),
      MergeProxy(def.proxy, ovr.proxy), Iebp(def.selfManagedPtr, ovr.selfManagedPtr, false),
      Iebpp(def.selfManagedPtr, ovr.selfManagedPtr), MergeOlvmMachine(def.workerMachine, ovr.workerMachine))
  }

  function MergeOlvmCsiDriver(def: OvirtCsiDriver, ovr: OvirtCsiDriver): OvirtCsiDriver {
    OvirtCsiDriver(Ies(def.configMapName, ovr.configMapName), Ies(def.controllerPluginName, ovr.controllerPluginName),
      Ies(def.csiDriverName, ovr.csiDriverName), Iebp(def.installPtr, ovr.installPtr, true),
      Iebpp(def.installPtr, ovr.installPtr), Ies(def.namespace, ovr.namespace),
      Ies(def.nodePluginName, ovr.nodePluginName), Ies(def.secretName, ovr.secretName))
  }

  function MergeNamespacedName(def: NamespacedName, ovr: NamespacedName): NamespacedName {
    NamespacedName(Ies(def.name, ovr.name), Ies(def.namespace, ovr.namespace))
  }

  function MergeOlvmOck(def: OlvmOck, ovr: OlvmOck): OlvmOck {
    OlvmOck(Ies(def.diskName, ovr.diskName), Ies(def.diskSize, ovr.diskSize),
      Ies(def.storageDomainName, ovr.storageDomainName))
  }

  function MergeOlvmAPIServer(def: OlvmAPIServer, ovr: OlvmAPIServer): OlvmAPIServer {
    OlvmAPIServer(MergeNamespacedName(def.caConfigMap, ovr.caConfigMap),
      MergeNamespacedName(def.credentialsSecret, ovr.credentialsSecret),
      Iebp(def.insecureSkipTLSVerifyPtr, ovr.insecureSkipTLSVerifyPtr, false),
      Iebpp(def.insecureSkipTLSVerifyPtr, ovr.insecureSkipTLSVerifyPtr), Ies(def.serverCA, ovr.serverCA),
      Ies(def.serverCAPath, ovr.serverCAPath), Ies(def.serverURL, ovr.serverURL))
  }

  function MergeOlvmMachine(def: OlvmMachine, ovr: OlvmMachine): OlvmMachine {
    OlvmMachine(MergeOlvmNetwork(def.olvmNetwork, ovr.olvmNetwork), Ies(def.olvmOvirtClusterName, ovr.olvmOvirtClusterName),
      MergeOlvmVirtualMachine(def.virtualMachine, ovr.virtualMachine), Ies(def.vmTemplateName, ovr.vmTemplateName))
  }

  function MergeOlvmNetwork(def: OlvmNetwork, ovr: OlvmNetwork): OlvmNetwork {
    OlvmNetwork(Ies(def.networkName, ovr.networkName), Ies(def.vnicName, ovr.vnicName),
      Ies(def.vnicProfileName, ovr.vnicProfileName))
  }

  function MergeOlvmVirtualMachine(def: OlvmVirtualMachine, ovr: OlvmVirtualMachine): OlvmVirtualMachine {
    OlvmVirtualMachine(MergeOlvmMachineCpu(def.cpu, ovr.cpu), Ies(def.memory, ovr.memory),
      MergeOlvmVirtualMachineNetwork(def.network, ovr.network))
  }

  function MergeOlvmMachineCpu(def: OlvmMachineCpu, ovr: OlvmMachineCpu): OlvmMachineCpu {
    OlvmMachineCpu(Ies(def.architecture, ovr.architecture), MergeOlvmMachineCpuTopology(def.topology, ovr.topology))
  }

  function MergeOlvmMachineCpuTopology(def: OlvmMachineCpuTopology, ovr: OlvmMachineCpuTopology): OlvmMachineCpuTopology {
    OlvmMachineCpuTopology(Iei(def.cores, ovr.cores), Iei(def.sockets, ovr.sockets), Iei(def.threads, ovr.threads))
  }

  function MergeOlvmVirtualMachineNetwork(
    def: OlvmVirtualMachineNetwork, ovr: OlvmVirtualMachineNetwork): OlvmVirtualMachineNetwork {
    OlvmVirtualMachineNetwork(Ies(def.gateway, ovr.gateway), Ies(def.interface, ovr.interface), Ies(def.interfaceType, ovr.interfaceType),
      MergeOlvmIPV4(def.ipv4, ovr.ipv4), MergeOlvmIPV6(def.ipv6, ovr.ipv6))
  }

  function MergeOlvmIPV4(def: OlvmIPV4, ovr: OlvmIPV4): OlvmIPV4 {
    OlvmIPV4(Ies(def.subnet, ovr.subnet), Ies(def.ipAddresses, ovr.ipAddresses))
  }

  function MergeOlvmIPV6(def: OlvmIPV6, ovr: OlvmIPV6): OlvmIPV6 {
    OlvmIPV6(Iebp(def.autoConfPtr, ovr.autoConfPtr, false), Iebpp(def.autoConfPtr, ovr.autoConfPtr),
      Ies(def.ipAddresses, ovr.ipAddresses))
  }

  function MergeOlvmLocalAPIEndpoint(def: OlvmLocalAPIEndpoint, ovr: OlvmLocalAPIEndpoint): OlvmLocalAPIEndpoint {
    OlvmLocalAPIEndpoint(Iei(def.bindPort, ovr.bindPort), Ies(def.advertiseAddress, ovr.advertiseAddress))
  }

  function MergeByoProvider(def: ByoProvider, ovr: ByoProvider): ByoProvider {
    ByoProvider(Iebp(def.automaticTokenCreationPtr, ovr.automaticTokenCreationPtr, false),
      Iebpp(def.automaticTokenCreationPtr, ovr.automaticTokenCreationPtr),
      Ies(def.networkInterface, ovr.networkInterface))
  }

  function MergeProviders(def: Providers, ovr: Providers): Providers {
    Providers(MergeLibvirtProvider(def.libvirt, ovr.libvirt), MergeOciProvider(def.oci, ovr.oci),
      MergeByoProvider(def.byo, ovr.byo), MergeOlvmProvider(def.olvm, ovr.olvm))
  }

  function MergeEphemeralConfig(def: EphemeralClusterConfig, ovr: EphemeralClusterConfig): EphemeralClusterConfig {
    EphemeralClusterConfig(Ies(def.name, ovr.name), false, MergeNode(def.node, ovr.node))
  }

  function MergeConfig(def: Config, ovr: Config): Config {
    Config(MergeProviders(def.providers, ovr.providers), Ies(def.kubeConfig, ovr.kubeConfig),
      Ies(def.autoStartUI, ovr.autoStartUI), MergeProxy(def.proxy, ovr.proxy),
      Iei(def.kubeAPIServerBindPort, ovr.kubeAPIServerBindPort),
      Iei(def.kubeAPIServerBindPortAlt, ovr.kubeAPIServerBindPortAlt), Ies(def.podSubnet, ovr.podSubnet),
      Ies(def.serviceSubnet, ovr.serviceSubnet), Ies(def.registry, ovr.registry),
      MergeCertificateInformation(def.certificateInformation, ovr.certificateInformation), Ies(def.osTag, ovr.osTag),
      Ies(def.osRegistry, ovr.osRegistry), Ies(def.kubeProxyMode, ovr.kubeProxyMode),
      Ies(def.bootVolumeContainerImage, ovr.bootVolumeContainerImage), Ies(def.cni, ovr.cni),
      Iebp(def.headlessPtr, ovr.headlessPtr, false), Iebpp(def.headlessPtr, ovr.headlessPtr),
      Iebp(def.catalogPtr, ovr.catalogPtr, true), Iebpp(def.catalogPtr, ovr.catalogPtr),
      Iebp(def.communityCatalogPtr, ovr.communityCatalogPtr, false),
      Iebpp(def.communityCatalogPtr, ovr.communityCatalogPtr),
      MergeEphemeralConfig(def.ephemeralConfig, ovr.ephemeralConfig), Iebp(def.quietPtr, ovr.quietPtr, false),
      Iebpp(def.quietPtr, ovr.quietPtr), Ies(def.kubeVersion, ovr.kubeVersion),
      Ies(def.sshPublicKeyPath, ovr.sshPublicKeyPath), Ies(def.sshPublicKey, ovr.sshPublicKey),
      Ies(def.password, ovr.password), Ies(def.extraIgnitionInline, ovr.extraIgnitionInline),
      Ies(def.extraIgnition, ovr.extraIgnition))
  }

  function MergeClusterConfig(def: ClusterConfig, ovr: ClusterConfig): ClusterConfig {
    ClusterConfig(Ies(def.workingDirectory, ovr.workingDirectory), Ies(def.name, ovr.name), Ies(def.provider, ovr.provider),
      MergeProviders(def.providers, ovr.providers), MergeProxy(def.proxy, ovr.proxy), Ies(def.registry, ovr.registry),
      Iei(def.workerNodes, ovr.workerNodes), Iei(def.controlPlaneNodes, ovr.controlPlaneNodes),
      Iei(def.kubeAPIServerBindPort, ovr.kubeAPIServerBindPort),
      Iei(def.kubeAPIServerBindPortAlt, ovr.kubeAPIServerBindPortAlt), Ies(def.virtualIp, ovr.virtualIp),
      Ies(def.loadBalancer, ovr.loadBalancer), Ies(def.podSubnet, ovr.podSubnet),
      Ies(def.serviceSubnet, ovr.serviceSubnet),
      MergeCertificateInformation(def.certificateInformation, ovr.certificateInformation), Ies(def.osTag, ovr.osTag),
      Ies(def.osRegistry, ovr.osRegistry), Ies(def.kubeProxyMode, ovr.kubeProxyMode),
      Ies(def.bootVolumeContainerImage, ovr.bootVolumeContainerImage), Ies(def.cni, ovr.cni),
      Iebp(def.headlessPtr, ovr.headlessPtr, false), Iebpp(def.headlessPtr, ovr.headlessPtr),
      Iebp(def.catalogPtr, ovr.catalogPtr, true), Iebpp(def.catalogPtr, ovr.catalogPtr),
      Iebp(def.communityCatalogPtr, ovr.communityCatalogPtr, false),
      Iebpp(def.communityCatalogPtr, ovr.communityCatalogPtr), def.catalogs + ovr.catalogs,
      def.applications + ovr.applications, Ies(def.kubeVersion, ovr.kubeVersion),
      Ies(def.sshPublicKeyPath, ovr.sshPublicKeyPath), Ies(def.sshPublicKey, ovr.sshPublicKey),
      Ies(def.password, ovr.password), Ies(def.cipherSuites, ovr.cipherSuites),
      Ies(def.clusterDefinitionInline, ovr.clusterDefinitionInline), Ies(def.clusterDefinition, ovr.clusterDefinition),
      Ies(def.extraIgnitionInline, ovr.extraIgnitionInline), Ies(def.extraIgnition, ovr.extraIgnition))
  }

  function OverlayConfig(cc: ClusterConfig, c: Config): ClusterConfig {
    ClusterConfig(cc.workingDirectory, cc.name, cc.provider, MergeProviders(c.providers, cc.providers),
      MergeProxy(c.proxy, cc.proxy), Ies(c.registry, cc.registry), cc.workerNodes, cc.controlPlaneNodes,
      Iei(c.kubeAPIServerBindPort, cc.kubeAPIServerBindPort),
      Iei(c.kubeAPIServerBindPortAlt, cc.kubeAPIServerBindPortAlt), cc.virtualIp, cc.loadBalancer,
      Ies(c.podSubnet, cc.podSubnet), Ies(c.serviceSubnet, cc.serviceSubnet),
      MergeCertificateInformation(c.certificateInformation, cc.certificateInformation), Ies(c.osTag, cc.osTag),
      Ies(c.osRegistry, cc.osRegistry), Ies(c.kubeProxyMode, cc.kubeProxyMode),
      Ies(c.bootVolumeContainerImage, cc.bootVolumeContainerImage), Ies(c.cni, cc.cni),
      Iebp(c.headlessPtr, cc.headlessPtr, false), Iebpp(c.headlessPtr, cc.headlessPtr),
      Iebp(c.catalogPtr, cc.catalogPtr, true), Iebpp(c.catalogPtr, cc.catalogPtr),
      Iebp(c.communityCatalogPtr, cc.communityCatalogPtr, false), Iebpp(c.communityCatalogPtr, cc.communityCatalogPtr),
      cc.catalogs, cc.applications, Ies(c.kubeVersion, cc.kubeVersion),
      Ies(c.sshPublicKeyPath, cc.sshPublicKeyPath), Ies(c.sshPublicKey, cc.sshPublicKey), Ies(c.password, cc.password),
      cc.cipherSuites, cc.clusterDefinitionInline, cc.clusterDefinition,
      Ies(c.extraIgnitionInline, cc.extraIgnitionInline), Ies(c.extraIgnition, cc.extraIgnition))
  }

  // ---------- laws

  lemma ValuesAssociative()
    ensures forall x, y, z :: Ies(Ies(x, y), z) == Ies(x, Ies(y, z))
    ensures forall x, y, z :: Iei(Iei(x, y), z) == Iei(x, Iei(y, z))
    ensures forall x, y, z :: Iebpp(Iebpp(x, y), z) == Iebpp(x, Iebpp(y, z))
    ensures forall x, y, z, d :: Iebp(Iebpp(x, y), z, d) == Iebp(x, Iebpp(y, z), d)
  {
    forall x, y, z
      ensures Ies(Ies(x, y), z) == Ies(x, Ies(y, z))
    {
    }
    forall x, y, z
      ensures Iei(Iei(x, y), z) == Iei(x, Iei(y, z))
    {
    }
    forall x, y, z
      ensures Iebpp(Iebpp(x, y), z) == Iebpp(x, Iebpp(y, z))
    {
    }
    forall x, y, z, d
      ensures Iebp(Iebpp(x, y), z, d) == Iebp(x, Iebpp(y, z), d)
    {
    }
  }

  lemma LibvirtAssociative(a: LibvirtProvider, b: LibvirtProvider, c: LibvirtProvider)
    ensures MergeLibvirtProvider(MergeLibvirtProvider(a, b), c) == MergeLibvirtProvider(a, MergeLibvirtProvider(b, c))
  {
    hide Ies, Iei, Iebp, Iebpp;
    ValuesAssociative();
  }

  lemma OciAssociative(a: OciProvider, b: OciProvider, c: OciProvider)
    ensures MergeOciProvider(MergeOciProvider(a, b), c) == MergeOciProvider(a, MergeOciProvider(b, c))
  {
    hide Ies, Iei, Iebp, Iebpp;
    ValuesAssociative();
  }

  lemma MachineAssociative(a: OlvmMachine, b: OlvmMachine, c: OlvmMachine)
    ensures MergeOlvmMachine(MergeOlvmMachine(a, b), c) == MergeOlvmMachine(a, MergeOlvmMachine(b, c))
  {
    hide Ies, Iei, Iebp, Iebpp;
    ValuesAssociative();
  }

  lemma OlvmAssociative(a: OlvmProvider, b: OlvmProvider, c: OlvmProvider)
    ensures MergeOlvmProvider(MergeOlvmProvider(a, b), c) == MergeOlvmProvider(a, MergeOlvmProvider(b, c))
  {
    hide Ies, Iei, Iebp, Iebpp, MergeOlvmMachine;
    ValuesAssociative();
    MachineAssociative(a.controlPlaneMachine, b.controlPlaneMachine, c.controlPlaneMachine);
    MachineAssociative(a.workerMachine, b.workerMachine, c.workerMachine);
  }

  lemma ProvidersAssociative(a: Providers, b: Providers, c: Providers)
    ensures MergeProviders(MergeProviders(a, b), c) == MergeProviders(a, MergeProviders(b, c))
  {
    hide Ies, Iei, Iebp, Iebpp, MergeLibvirtProvider, MergeOciProvider, MergeOlvmProvider;
    ValuesAssociative();
    LibvirtAssociative(a.libvirt, b.libvirt, c.libvirt);
    OciAssociative(a.oci, b.oci, c.oci);
    OlvmAssociative(a.olvm, b.olvm, c.olvm);
  }

  lemma MergeAssociative(a: Config, b: Config, c: Config)
    ensures MergeConfig(MergeConfig(a, b), c) == MergeConfig(a, MergeConfig(b, c))
  {
    hide Ies, Iei, Iebp, Iebpp, MergeProviders;
    ValuesAssociative();
    ProvidersAssociative(a.providers, b.providers, c.providers);
  }

  lemma ClusterMergeAssociative(a: ClusterConfig, b: ClusterConfig, c: ClusterConfig)
    ensures MergeClusterConfig(MergeClusterConfig(a, b), c) == MergeClusterConfig(a, MergeClusterConfig(b, c))
  {
    hide Ies, Iei, Iebp, Iebpp, MergeProviders;
    ValuesAssociative();
    ProvidersAssociative(a.providers, b.providers, c.providers);
  }

  /** Overlaying is an action of merging: over a merge of two configurations is over
      the second and then over the first. */
  lemma OverlayIsAction(cc: ClusterConfig, a: Config, b: Config)
    ensures OverlayConfig(cc, MergeConfig(a, b)) == OverlayConfig(OverlayConfig(cc, b), a)
  {
    hide Ies, Iei, Iebp, Iebpp, MergeProviders;
    ValuesAssociative();
    ProvidersAssociative(a.providers, b.providers, cc.providers);
  }

  lemma ValuesAgain()
    ensures forall x, y :: Ies(x, Ies(x, y)) == Ies(x, y)
    ensures forall x, y :: Iei(x, Iei(x, y)) == Iei(x, y)
    ensures forall x, y :: Iebpp(x, Iebpp(x, y)) == Iebpp(x, y)
    ensures forall x, y, d :: Iebp(x, Iebpp(x, y), d) == Iebp(x, y, d)
  {
  }

  lemma ProvidersAgain(a: Providers, b: Providers)
    ensures MergeProviders(a, MergeProviders(a, b)) == MergeProviders(a, b)
  {
    hide Ies, Iei, Iebp, Iebpp, MergeOlvmMachine, MergeLibvirtProvider, MergeOciProvider;
    ValuesAgain();
    MachineAgain(a.olvm.controlPlaneMachine, b.olvm.controlPlaneMachine);
    MachineAgain(a.olvm.workerMachine, b.olvm.workerMachine);
    LibvirtAgain(a.libvirt, b.libvirt);
    OciAgain(a.oci, b.oci);
  }

  lemma MachineAgain(a: OlvmMachine, b: OlvmMachine)
    ensures MergeOlvmMachine(a, MergeOlvmMachine(a, b)) == MergeOlvmMachine(a, b)
  {
    hide Ies, Iei, Iebp, Iebpp;
    ValuesAgain();
  }

  lemma LibvirtAgain(a: LibvirtProvider, b: LibvirtProvider)
    ensures MergeLibvirtProvider(a, MergeLibvirtProvider(a, b)) == MergeLibvirtProvider(a, b)
  {
    hide Ies, Iei, Iebp, Iebpp;
    ValuesAgain();
  }

  lemma OciAgain(a: OciProvider, b: OciProvider)
    ensures MergeOciProvider(a, MergeOciProvider(a, b)) == MergeOciProvider(a, b)
  {
    hide Ies, Iei, Iebp, Iebpp;
    ValuesAgain();
  }

  /** A second overlay of the same configuration changes nothing. */
  lemma OverlayTwice(cc: ClusterConfig, c: Config)
    ensures OverlayConfig(OverlayConfig(cc, c), c) == OverlayConfig(cc, c)
  {
    hide Ies, Iei, Iebp, Iebpp, MergeProviders;
    ValuesAgain();
    ProvidersAgain(c.providers, cc.providers);
  }

  // ---------- flags and copies

  predicate DerivedMachine(m: OlvmMachine) {
    var v6 := m.virtualMachine.network.ipv6;
    v6.autoConf == v6.autoConfPtr.GetOr(false)
  }

  /** Every flag is what its pointer says, or its default. */
  predicate DerivedProviders(p: Providers) {
    && p.libvirt.secureBoot == p.libvirt.secureBootPtr.GetOr(false)
    && p.libvirt.smm == p.libvirt.smmPtr.GetOr(false)
    && p.oci.selfManaged == p.oci.selfManagedPtr.GetOr(false)
    && p.byo.automaticTokenCreation == p.byo.automaticTokenCreationPtr.GetOr(false)
    && p.olvm.selfManaged == p.olvm.selfManagedPtr.GetOr(false)
    && p.olvm.csiDriver.install == p.olvm.csiDriver.installPtr.GetOr(true)
    && p.olvm.olvmAPIServer.insecureSkipTLSVerify == p.olvm.olvmAPIServer.insecureSkipTLSVerifyPtr.GetOr(false)
    && DerivedMachine(p.olvm.controlPlaneMachine) && DerivedMachine(p.olvm.workerMachine)
  }

  predicate Derived(c: Config) {
    && DerivedProviders(c.providers)
    && c.headless == c.headlessPtr.GetOr(false)
    && c.catalog == c.catalogPtr.GetOr(true)
    && c.communityCatalog == c.communityCatalogPtr.GetOr(false)
    && c.quiet == c.quietPtr.GetOr(false)
  }

  predicate DerivedCluster(cc: ClusterConfig) {
    && DerivedProviders(cc.providers)
    && cc.headless == cc.headlessPtr.GetOr(false)
    && cc.catalog == cc.catalogPtr.GetOr(true)
    && cc.communityCatalog == cc.communityCatalogPtr.GetOr(false)
  }

  lemma FlagsAreDerived(a: Config, b: Config, cc: ClusterConfig, dd: ClusterConfig)
    ensures Derived(MergeConfig(a, b)) && DerivedCluster(MergeClusterConfig(cc, dd)) && DerivedCluster(OverlayConfig(cc, a))
  {
    hide Ies, Iei, Iebp, Iebpp, MergeProviders, DerivedProviders;
    FlagOfPointer();
    ProvidersDerived(a.providers, b.providers);
    ProvidersDerived(cc.providers, dd.providers);
    ProvidersDerived(a.providers, cc.providers);
  }

  lemma ProvidersDerived(a: Providers, b: Providers)
    ensures DerivedProviders(MergeProviders(a, b))
  {
    hide Ies, Iei, Iebp, Iebpp;
    FlagOfPointer();
  }

  lemma FlagOfPointer()
    ensures forall x, y, d :: Iebp(x, y, d) == Iebpp(x, y).GetOr(d)
  {
  }

  const NO_NODE := Node("", 0, "")
  const NO_SHAPE := OciInstanceShape("", 0, "")
  const NO_NAME := NamespacedName("", "")
  const NO_PROXY := Proxy("", "", "")
  const NO_CERTIFICATE := CertificateInformation("", "", "", "")
  const NO_MACHINE := OlvmMachine(OlvmNetwork("", "", ""), "",
    OlvmVirtualMachine(OlvmMachineCpu("", OlvmMachineCpuTopology(0, 0, 0)), "",
      OlvmVirtualMachineNetwork("", "", "", OlvmIPV4("", ""), OlvmIPV6(false, None, ""))), "")
  const NO_PROVIDERS := Providers(
    LibvirtProvider("", "", "", "", NO_NODE, NO_NODE, "", "", "", false, None, false, None),
    OciProvider("", "", "", "", NO_SHAPE, OciImageSet("", ""), NO_SHAPE, false, None, LoadBalancer("", ""), "", "", NO_PROXY),
    ByoProvider(false, None, ""),
    OlvmProvider(NO_MACHINE, OvirtCsiDriver("", "", "", false, None, "", "", ""), "", OlvmLocalAPIEndpoint(0, ""), "",
      OlvmAPIServer(NO_NAME, NO_NAME, false, None, "", "", ""), OlvmOck("", "", ""), NO_PROXY, false, None, NO_MACHINE))
  const NO_CONFIG := Config(NO_PROVIDERS, "", "", NO_PROXY, 0, 0, "", "", "", NO_CERTIFICATE, "", "", "", "", "",
    false, None, false, None, false, None, EphemeralClusterConfig("", false, NO_NODE), false, None, "", "", "", "", "", "")
  const NO_CLUSTER := ClusterConfig("", "", "", NO_PROVIDERS, NO_PROXY, "", 0, 0, 0, 0, "", "", "", "", NO_CERTIFICATE, "", "",
    "", "", "", false, None, false, None, false, None, [], [], "", "", "", "", "", "", "", "", "")

  function CopyConfig(c: Config): Config { MergeConfig(NO_CONFIG, c) }
  function CopyClusterConfig(cc: ClusterConfig): ClusterConfig { MergeClusterConfig(NO_CLUSTER, cc) }

  lemma ValuesOverNothing()
    ensures forall x :: Ies("", x) == x
    ensures forall x :: Iei(0, x) == x
    ensures forall x :: Iebpp(None, x) == x
    ensures forall x: Option<bool>, d :: Iebp(None, x, d) == x.GetOr(d)
  {
  }

  lemma CopyProviders(p: Providers)
    ensures MergeProviders(NO_PROVIDERS, p) == p <==> DerivedProviders(p)
  {
    hide Ies, Iei, Iebp, Iebpp;
    ValuesOverNothing();
  }

  /** A copy is a copy exactly of what has its flags derived and does not ask to
      preserve the ephemeral cluster. */
  lemma CopyIsCopy(c: Config, cc: ClusterConfig)
    ensures CopyConfig(c) == c <==> Derived(c) && !c.ephemeralConfig.preserve
    ensures CopyClusterConfig(cc) == cc <==> DerivedCluster(cc)
  {
    hide Ies, Iei, Iebp, Iebpp, MergeProviders, DerivedProviders;
    ValuesOverNothing();
    CopyProviders(c.providers);
    CopyProviders(cc.providers);
  }
}
